/** What an attribute list says, entry by entry, and what that makes of the rules of inheritance. */
module AttributeLists {
  import opened Text
  import opened NodeTree
  import opened ForestLaws
  import opened OrderedMaps
  import opened Attributes
  import opened PrepareAttributes
  import opened AttributeLaws
  import A = AttributeKinds
  import L = AttributeLaws

  // ------------------------------------------------------------------
  //  Groups
  // ------------------------------------------------------------------

  /** Two of the attributes that the message for one group names. */
  predicate OneGroup(a: A.Attribute, b: A.Attribute) {
    || ((a.True? || a.False?) && (b.True? || b.False?))
    || (OfFunction(a) && OfFunction(b))
    || ((a.RequireElse? || a.EnsureThen?) && (b.RequireElse? || b.EnsureThen?))
    || ((a.ForEach? || a.NoBreak? || a.AutoBreak?) && (b.ForEach? || b.NoBreak? || b.AutoBreak?))
    || ((a.Public? || a.Private? || a.Protected?) && (b.Public? || b.Private? || b.Protected?))
  }

  predicate OfFunction(a: A.Attribute) {
    a.Abstract? || a.Constructor? || a.Inline? || a.Native? || a.Static? || a.Virtual?
  }

  /** The pairs of a group that are let through. */
  predicate LetThrough(a: A.Attribute, b: A.Attribute) {
    || (a.Native? && (b.Constructor? || b.Static? || b.Virtual?))
    || (b.Native? && (a.Constructor? || a.Static? || a.Virtual?))
    || (a.Inline? && b.Static?) || (a.Static? && b.Inline?)
  }

  /** The message says that only one of a group can be used; four pairs are possible nevertheless. */
  lemma {:induction false} RivalsAreGroups(a: A.Attribute, b: A.Attribute)
    ensures b in A.Rivals(a) <==> a != b && OneGroup(a, b) && !LetThrough(a, b)
  {
    hide OneGroup, A.Rivals;
    if OfFunction(a) {
      RivalsOfFunction(a, b);
    } else {
      OtherRivals(a, b);
    }
  }

  lemma {:induction false} RivalsOfFunction(a: A.Attribute, b: A.Attribute)
    requires OfFunction(a)
    ensures b in A.Rivals(a) <==> a != b && OneGroup(a, b) && !LetThrough(a, b)
  {
  }

  lemma {:induction false} OtherRivals(a: A.Attribute, b: A.Attribute)
    requires !OfFunction(a)
    ensures b in A.Rivals(a) <==> a != b && OneGroup(a, b)
  {
  }

  // ------------------------------------------------------------------
  //  Entries
  // ------------------------------------------------------------------

  /** An entry of that type, or an identifier of that name, is about `a`. */
  predicate Says(kind: NodeType, name: Text, a: A.Attribute) {
    match a
    case Abstract => kind == Abstract
    case False => kind == False
    case Final => kind == Final
    case Inline => kind == Inline
    case Native => kind == Native
    case Private => kind == Private
    case Protected => kind == Protected
    case Public => kind == Public
    case Static => kind == Static
    case Transient => kind == Transient
    case True => kind == True
    case Volatile => kind == Volatile
    case Array => kind == Identifier && name == Codes("array")
    case AutoBreak => kind == Identifier && name == Codes("autobreak")
    case Constructor => kind == Identifier && name == Codes("constructor")
    case Deprecated => kind == Identifier && name == Codes("deprecated")
    case Dynamic => kind == Identifier && name == Codes("dynamic")
    case Enumerable => kind == Identifier && name == Codes("enumerable")
    case ForEach => kind == Identifier && name == Codes("foreach")
    case Internal => kind == Identifier && name == Codes("internal")
    case NoBreak => kind == Identifier && name == Codes("nobreak")
    case Unsafe => kind == Identifier && name == Codes("unsafe")
    case Unused => kind == Identifier && name == Codes("unused")
    case Virtual => kind == Identifier && name == Codes("virtual")
    case _ => false
  }

  lemma {:induction false} NamesAreSpelled()
    ensures ARRAY == Codes("array") && AUTOBREAK == Codes("autobreak") && CONSTRUCTOR == Codes("constructor")
    ensures DEPRECATED == Codes("deprecated") && DYNAMIC == Codes("dynamic") && ENUMERABLE == Codes("enumerable")
    ensures FOREACH == Codes("foreach") && INTERNAL == Codes("internal") && NOBREAK == Codes("nobreak")
    ensures UNSAFE == Codes("unsafe") && UNUSED == Codes("unused") && VIRTUAL == Codes("virtual")
  {
    hide Codes;
    Spelled(ARRAY, "array");
    Spelled(AUTOBREAK, "autobreak");
    Spelled(CONSTRUCTOR, "constructor");
    Spelled(DEPRECATED, "deprecated");
    Spelled(DYNAMIC, "dynamic");
    Spelled(ENUMERABLE, "enumerable");
    Spelled(FOREACH, "foreach");
    Spelled(INTERNAL, "internal");
    Spelled(NOBREAK, "nobreak");
    Spelled(UNSAFE, "unsafe");
    Spelled(UNUSED, "unused");
    Spelled(VIRTUAL, "virtual");
  }

  lemma {:induction false} LiteralMeans(kind: NodeType, name: Text, a: A.Attribute)
    ensures Literal(kind, name) == Some(a) <==> Says(kind, name, a)
  {
    hide Named, Codes, ARRAY, AUTOBREAK, CONSTRUCTOR, DEPRECATED, DYNAMIC, ENUMERABLE;
    hide FOREACH, INTERNAL, NOBREAK, UNSAFE, UNUSED, VIRTUAL;
    NamedMeans(name, a);
  }

  lemma {:induction false} NamesDiffer()
    ensures |ARRAY| == 5 && |AUTOBREAK| == 9 && |CONSTRUCTOR| == 11 && |DEPRECATED| == 10 && |DYNAMIC| == 7 && |ENUMERABLE| == 10
    ensures |FOREACH| == 7 && |INTERNAL| == 8 && |NOBREAK| == 7 && |UNSAFE| == 6 && |UNUSED| == 6 && |VIRTUAL| == 7
    ensures DEPRECATED != ENUMERABLE && UNSAFE != UNUSED
    ensures DYNAMIC != FOREACH && DYNAMIC != NOBREAK && DYNAMIC != VIRTUAL
    ensures FOREACH != NOBREAK && FOREACH != VIRTUAL && NOBREAK != VIRTUAL
  {
    assert DEPRECATED[0] == 100 && ENUMERABLE[0] == 101 && DYNAMIC[0] == 100 && FOREACH[0] == 102 && NOBREAK[0] == 110 && VIRTUAL[0] == 118;
    assert UNSAFE[2] == 115 && UNUSED[2] == 117;
  }

  lemma {:induction false} NamedMeans(name: Text, a: A.Attribute)
    ensures Named(name) == Some(a) <==> Says(Identifier, name, a)
  {
    hide Codes, ARRAY, AUTOBREAK, CONSTRUCTOR, DEPRECATED, DYNAMIC, ENUMERABLE;
    hide FOREACH, INTERNAL, NOBREAK, UNSAFE, UNUSED, VIRTUAL;
    NamesAreSpelled();
    NamesDiffer();
  }

  // ------------------------------------------------------------------
  //  The answer of a list
  // ------------------------------------------------------------------

  /** What the entries of a list are about. */
  type Words = seq<Option<A.Attribute>>

  /** Entry `i` is about `a`, and no entry before it that stands is about a rival. */
  ghost predicate Stands(ws: Words, i: nat, a: A.Attribute)
    requires i < |ws|
    decreases i
  {
    ws[i] == Some(a) && forall j, b :: 0 <= j < i && b in A.Rivals(a) ==> !Stands(ws, j, b)
  }

  /** The attributes after those entries. */
  function Answer(s: AttributeSet, ws: Words): AttributeSet {
    if ws == [] then s else PutLiteral(Answer(s, ws[..|ws| - 1]), ws[|ws| - 1])
  }

  lemma {:induction false} StandsEarlier(ws: Words, i: nat, a: A.Attribute, n: nat)
    requires i < n <= |ws|
    ensures Stands(ws, i, a) <==> Stands(ws[..n], i, a)
    decreases i
  {
    hide A.Rivals;
    forall j, b | 0 <= j < i && b in A.Rivals(a) ensures Stands(ws, j, b) <==> Stands(ws[..n], j, b) {
      StandsEarlier(ws, j, b, n);
    }
  }

  /** Some entry about `a` stands; being prepared needs no entry. */
  ghost predicate Listed(ws: Words, a: A.Attribute) {
    a == A.Defined || exists i :: 0 <= i < |ws| && Stands(ws, i, a)
  }

  lemma {:induction false} ListedGrows(ws: Words, a: A.Attribute)
    requires ws != []
    ensures Listed(ws, a) <==> Listed(ws[..|ws| - 1], a) || Stands(ws, |ws| - 1, a)
  {
    hide Stands;
    var t, n := ws[..|ws| - 1], |ws| - 1;
    forall i | 0 <= i < n ensures Stands(ws, i, a) <==> Stands(t, i, a) {
      StandsEarlier(ws, i, a, n);
    }
  }

  /** The last entry stands exactly when no rival is listed before. */
  lemma {:induction false} LastStands(ws: Words, a: A.Attribute)
    requires ws != [] && ws[|ws| - 1] == Some(a)
    ensures Stands(ws, |ws| - 1, a) <==> forall b :: b in A.Rivals(a) ==> !Listed(ws[..|ws| - 1], b)
  {
    assert A.Defined !in A.Rivals(a);
    hide A.Rivals;
    var t, n := ws[..|ws| - 1], |ws| - 1;
    forall i, b | 0 <= i < n ensures Stands(ws, i, b) <==> Stands(t, i, b) {
      StandsEarlier(ws, i, b, n);
    }
  }

  /** An attribute is in the answer exactly when an entry about it stands. */
  lemma {:induction false} AnswerMeans(ws: Words)
    ensures forall a :: a in Answer({A.Defined}, ws) <==> Listed(ws, a)
  {
    hide A.Rivals, Listed, Stands;
    if ws == [] {
      forall a ensures a in Answer({A.Defined}, ws) <==> Listed(ws, a) {
        NothingListed(a);
      }
    } else {
      var t, n := ws[..|ws| - 1], |ws| - 1;
      AnswerMeans(t);
      if ws[n].Some? {
        LastStands(ws, ws[n].value);
      }
      forall a ensures a in Answer({A.Defined}, ws) <==> Listed(ws, a) {
        ListedGrows(ws, a);
        OnlyItsWord(ws, n, a);
      }
    }
  }

  lemma {:induction false} NothingListed(a: A.Attribute)
    ensures Listed([], a) <==> a == A.Defined
  {
  }

  lemma {:induction false} OnlyItsWord(ws: Words, i: nat, a: A.Attribute)
    requires i < |ws|
    ensures Stands(ws, i, a) ==> ws[i] == Some(a)
  {
  }

  // ------------------------------------------------------------------
  //  First come, first served
  // ------------------------------------------------------------------

  /** An entry about `a` comes before every entry about a rival of it. */
  ghost predicate ComesFirst(ws: Words, a: A.Attribute) {
    exists i :: 0 <= i < |ws| && ws[i] == Some(a) && NoRivalBefore(ws, i, a)
  }

  ghost predicate NoRivalBefore(ws: Words, i: nat, a: A.Attribute)
    requires i <= |ws|
  {
    forall j :: 0 <= j < i ==> !(ws[j].Some? && ws[j].value in A.Rivals(a))
  }

  /** What rivals a rival of `a` rivals `a`. */
  predicate Clique(a: A.Attribute) {
    forall r, q :: r in A.Rivals(a) && q in A.Rivals(r) ==> q == a || q in A.Rivals(a)
  }

  /** The first entry about a rival of `a` stands, if no entry about `a` comes before it. */
  lemma {:induction false} FirstRivalStands(ws: Words, j: nat, a: A.Attribute)
    requires j < |ws| && Clique(a) && ws[j].Some? && ws[j].value in A.Rivals(a) && NoRivalBefore(ws, j, a)
    requires forall i :: 0 <= i < j ==> ws[i] != Some(a)
    ensures Stands(ws, j, ws[j].value)
  {
    hide A.Rivals;
    forall i, b | 0 <= i < j && b in A.Rivals(ws[j].value) ensures !Stands(ws, i, b) {
      OnlyItsWord(ws, i, b);
    }
  }

  lemma {:induction false} NobodyBeforeStands(ws: Words, i: nat, a: A.Attribute)
    requires i < |ws| && ws[i] == Some(a) && NoRivalBefore(ws, i, a)
    ensures Stands(ws, i, a)
  {
    hide A.Rivals;
  }

  /** What stands came before its rivals. */
  lemma {:induction false} StandsComesFirst(ws: Words, i: nat, a: A.Attribute)
    requires i < |ws| && Clique(a) && Stands(ws, i, a)
    ensures ComesFirst(ws, a)
    decreases i
  {
    hide A.Rivals, Clique;
    if !NoRivalBefore(ws, i, a) {
      var j := FirstRival(ws, i, a);
      if k :| 0 <= k < j && ws[k] == Some(a) {
        assert NoRivalBefore(ws, k, a);
      } else {
        FirstRivalStands(ws, j, a);
      }
    }
  }

  lemma {:induction false} FirstRival(ws: Words, i: nat, a: A.Attribute) returns (j: nat)
    requires i <= |ws| && !NoRivalBefore(ws, i, a)
    ensures j < i && ws[j].Some? && ws[j].value in A.Rivals(a) && NoRivalBefore(ws, j, a)
    decreases i
  {
    hide A.Rivals;
    if NoRivalBefore(ws, i - 1, a) {
      j := i - 1;
    } else {
      j := FirstRival(ws, i - 1, a);
    }
  }

  /** First come, first served: the rule holds of `a` in every list exactly when the rivals of `a` exclude nothing that
      `a` does not. */
  lemma {:induction false} FirstServed(a: A.Attribute)
    requires a != A.Defined
    ensures (forall ws: Words :: a in Answer({A.Defined}, ws) <==> ComesFirst(ws, a)) <==> Clique(a)
  {
    hide A.Rivals, Answer, Clique, Stands, NoRivalBefore;
    if Clique(a) {
      forall ws: Words ensures a in Answer({A.Defined}, ws) <==> ComesFirst(ws, a) {
        AnswerMeans(ws);
        if ComesFirst(ws, a) {
          var i :| 0 <= i < |ws| && ws[i] == Some(a) && NoRivalBefore(ws, i, a);
          NobodyBeforeStands(ws, i, a);
        }
        if i :| 0 <= i < |ws| && Stands(ws, i, a) {
          StandsComesFirst(ws, i, a);
        }
      }
    } else {
      var ws := Displaced(a);
    }
  }

  /** A rival of a rival, the rival, and then `a`: the rival is not let in, and `a` is. */
  lemma {:induction false} Displaced(a: A.Attribute) returns (ws: Words)
    requires !Clique(a) && a != A.Defined
    ensures a in Answer({A.Defined}, ws) && !ComesFirst(ws, a)
  {
    hide A.Rivals, Answer, Listed, ComesFirst;
    var r, q :| r in A.Rivals(a) && q in A.Rivals(r) && q != a && q !in A.Rivals(a);
    A.RivalsAreMutual(a, r);
    A.RivalsAreMutual(q, r);
    A.RivalsAreMutual(a, q);
    ws := [Some(q), Some(r), Some(a)];
    DisplacedStands(ws, a, r, q);
    AnswerMeans(ws);
  }

  lemma {:induction false} DisplacedStands(ws: Words, a: A.Attribute, r: A.Attribute, q: A.Attribute)
    requires |ws| == 3 && ws[0] == Some(q) && ws[1] == Some(r) && ws[2] == Some(a)
    requires r in A.Rivals(a) && q in A.Rivals(r) && q != a && q !in A.Rivals(a) && r != a
    ensures Listed(ws, a) && !ComesFirst(ws, a)
  {
    hide A.Rivals, Stands;
    FirstStands(ws, q);
    Blocked(ws, 1, r, 0, q);
    forall j, b | 0 <= j < 2 && b in A.Rivals(a) ensures !Stands(ws, j, b) {
      OnlyItsWord(ws, j, b);
    }
    Unblocked(ws, 2, a);
    assert ws[1].value in A.Rivals(a);
  }

  lemma {:induction false} FirstStands(ws: Words, a: A.Attribute)
    requires ws != [] && ws[0] == Some(a)
    ensures Stands(ws, 0, a)
  {
  }

  lemma {:induction false} Blocked(ws: Words, i: nat, a: A.Attribute, j: nat, b: A.Attribute)
    requires j < i < |ws| && b in A.Rivals(a) && Stands(ws, j, b)
    ensures !Stands(ws, i, a)
  {
    hide A.Rivals;
  }

  lemma {:induction false} Unblocked(ws: Words, i: nat, a: A.Attribute)
    requires i < |ws| && ws[i] == Some(a) && forall j, b :: 0 <= j < i && b in A.Rivals(a) ==> !Stands(ws, j, b)
    ensures Stands(ws, i, a)
  {
    hide A.Rivals;
  }

  /** Only static, constructor, inline, native and virtual can be displaced like that. */
  lemma {:induction false} WhichAreServed(a: A.Attribute)
    ensures Clique(a) <==> !(a.Static? || a.Constructor? || a.Inline? || a.Native? || a.Virtual?)
  {
    if a.Static? || a.Constructor? {
      assert A.Abstract in A.Rivals(a) && A.Native in A.Rivals(A.Abstract) && A.Native !in A.Rivals(a);
    } else if a.Inline? || a.Native? {
      assert A.Abstract in A.Rivals(a) && A.Static in A.Rivals(A.Abstract) && A.Static !in A.Rivals(a);
    } else if a.Virtual? {
      assert A.Abstract in A.Rivals(a) && A.Native in A.Rivals(A.Abstract) && A.Native !in A.Rivals(a);
    }
  }

  // ------------------------------------------------------------------
  //  The lists of a tree
  // ------------------------------------------------------------------

  /** Entry `i` of the list `l` is about `a`. */
  ghost predicate EntrySays(src: Source, l: Node, i: nat, a: A.Attribute)
    requires SoundSource(src) && l in src.f.parent && i < |src.f.children[l]|
  {
    var x := src.f.children[l][i];
    assert x in src.f.children[l];
    Says(src.f.kind[x], src.names[x], a)
  }

  ghost function WordsOf(src: Source, l: Node): (ws: Words)
    requires SoundSource(src) && l in src.f.parent
    ensures |ws| == |src.f.children[l]|
  {
    seq(|src.f.children[l]|, i requires 0 <= i < |src.f.children[l]| =>
      assert src.f.children[l][i] in src.f.children[l];
      Literal(src.f.kind[src.f.children[l][i]], src.names[src.f.children[l][i]]))
  }

  lemma {:induction false} WordsSay(src: Source, l: Node, i: nat, a: A.Attribute)
    requires SoundSource(src) && l in src.f.parent && i < |src.f.children[l]|
    ensures WordsOf(src, l)[i] == Some(a) <==> EntrySays(src, l, i, a)
  {
    hide Literal, Says;
    var x := src.f.children[l][i];
    assert x in src.f.children[l];
    LiteralMeans(src.f.kind[x], src.names[x], a);
  }

  lemma {:induction false} ListIsAnswer(src: Source, s: AttributeSet, l: Node, n: nat)
    requires SoundSource(src) && l in src.f.parent && n <= |src.f.children[l]|
    ensures FromList(src, s, l, n) == Answer(s, WordsOf(src, l)[..n])
    decreases n
  {
    hide Literal, PutLiteral;
    if n > 0 {
      var ws := WordsOf(src, l);
      ListIsAnswer(src, s, l, n - 1);
      assert ws[..n][..n - 1] == ws[..n - 1] && ws[..n][n - 1] == ws[n - 1];
      assert src.f.children[l][n - 1] in src.f.children[l];
    }
  }

  /** `a` is in the list of `n`. */
  ghost predicate HasWord(src: Source, n: Node, a: A.Attribute)
    requires SoundSource(src) && n in src.f.parent
  {
    src.f.kind[n] != Program && src.lists[n] != null && Listed(WordsOf(src, src.lists[n]), a)
  }

  /** What a node says itself is what stands in its list. */
  lemma {:induction false} OwnMeans(src: Source, n: Node, a: A.Attribute)
    requires SoundSource(src) && n in src.f.parent && a != A.Defined
    ensures a in OwnOf(src, n) <==> HasWord(src, n, a)
  {
    hide FromList, Answer, Listed, WordsOf;
    var l := src.lists[n];
    if l != null {
      var ws := WordsOf(src, l);
      ListIsAnswer(src, {A.Defined}, l, |ws|);
      assert ws[..|ws|] == ws;
      AnswerMeans(ws);
    }
  }

  /** An entry of the list of `n` is about `a`, and none before it is about a rival. */
  ghost predicate SaysFirst(src: Source, n: Node, a: A.Attribute)
    requires SoundSource(src) && n in src.f.parent
  {
    var l := src.lists[n];
    src.f.kind[n] != Program && l != null
    && exists i :: 0 <= i < |src.f.children[l]| && EntrySays(src, l, i, a) && NoneBefore(src, l, i, a)
  }

  ghost predicate NoneBefore(src: Source, l: Node, i: nat, a: A.Attribute)
    requires SoundSource(src) && l in src.f.parent && i <= |src.f.children[l]|
  {
    forall j, b :: 0 <= j < i && b in A.Rivals(a) ==> !EntrySays(src, l, j, b)
  }

  lemma {:induction false} NoneBeforeIs(src: Source, l: Node, i: nat, a: A.Attribute)
    requires SoundSource(src) && l in src.f.parent && i <= |src.f.children[l]|
    ensures NoneBefore(src, l, i, a) <==> NoRivalBefore(WordsOf(src, l), i, a)
  {
    hide A.Rivals, WordsOf, EntrySays, SoundSource;
    var ws := WordsOf(src, l);
    if NoneBefore(src, l, i, a) {
      forall j | 0 <= j < i ensures !(ws[j].Some? && ws[j].value in A.Rivals(a)) {
        if ws[j].Some? {
          WordsSay(src, l, j, ws[j].value);
        }
      }
    }
    if NoRivalBefore(ws, i, a) {
      forall j, b | 0 <= j < i && b in A.Rivals(a) ensures !EntrySays(src, l, j, b) {
        WordsSay(src, l, j, b);
      }
    }
  }

  /** First come, first served, by the types and the names of the entries. */
  lemma {:induction false} OwnIsFirst(src: Source, n: Node, a: A.Attribute)
    requires SoundSource(src) && n in src.f.parent && a != A.Defined && Clique(a)
    ensures a in OwnOf(src, n) <==> SaysFirst(src, n, a)
  {
    hide A.Rivals, WordsOf, EntrySays, OwnOf, Clique, ComesFirst, NoneBefore, Answer, Listed;
    OwnMeans(src, n, a);
    var l := src.lists[n];
    if l != null {
      var ws := WordsOf(src, l);
      AnswerMeans(ws);
      FirstServed(a);
      assert a in Answer({A.Defined}, ws) <==> ComesFirst(ws, a);
      FirstIsFirst(src, l, a);
    }
  }

  lemma {:induction false} FirstIsFirst(src: Source, l: Node, a: A.Attribute)
    requires SoundSource(src) && l in src.f.parent
    ensures ComesFirst(WordsOf(src, l), a)
      <==> exists i :: 0 <= i < |src.f.children[l]| && EntrySays(src, l, i, a) && NoneBefore(src, l, i, a)
  {
    hide A.Rivals, WordsOf, EntrySays, NoRivalBefore, NoneBefore, SoundSource;
    var ws := WordsOf(src, l);
    forall i | 0 <= i < |ws|
      ensures ws[i] == Some(a) <==> EntrySays(src, l, i, a)
      ensures NoneBefore(src, l, i, a) <==> NoRivalBefore(ws, i, a)
    {
      WordsSay(src, l, i, a);
      NoneBeforeIs(src, l, i, a);
    }
  }

  // ------------------------------------------------------------------
  //  The rules of inheritance, by the entries
  // ------------------------------------------------------------------

  /** A node inherits from its parent unless one of them is a package or the program; a function loses native to a child
      that is a list of directives. */
  lemma {:induction false} WhereItStops(f: Forest, n: Node, s: AttributeSet)
    requires Closed(f) && n in f.parent
    ensures Inherits(f, n) <==> f.kind[n] !in {Package, Program} && f.parent[n] != null && f.kind[f.parent[n]] !in {Package, Program}
    ensures A.Native in Finish(f, n, s) <==>
      A.Native in s && !(f.kind[n] == Function && exists c :: c in f.children[n] && f.kind[c] == DirectiveList)
  {
    assert f.parent[n] != null ==> f.parent[n] in f.parent;
    if c :| c in f.children[n] && f.kind[c] == DirectiveList {
      var i :| 0 <= i < |f.children[n]| && f.children[n][i] == c;
      assert HasList(f, n);
    }
    if HasList(f, n) {
      var i :| 0 <= i < |f.children[n]| && f.children[n][i] in f.kind && f.kind[f.children[n][i]] == DirectiveList;
      assert f.children[n][i] in f.children[n];
    }
  }

  lemma {:induction false} VisibilityIsClique(v: A.Attribute)
    ensures v in VISIBILITY ==> Clique(v) && A.Rivals(v) == VISIBILITY - {v}
    ensures Clique(A.False) && A.Rivals(A.False) == {A.True}
  {
  }

  /** The list of the node `j` steps above says `v` before any other visibility, and the lists on the way say none. */
  ghost predicate VisibleFrom(src: Source, v: A.Attribute, n: Node, j: nat)
    requires SoundSource(src) && n in src.f.parent
    decreases j
  {
    if j == 0 then SaysFirst(src, n, v)
    else (forall w :: w in VISIBILITY ==> !SaysFirst(src, n, w)) && Inherits(src.f, n) && VisibleFrom(src, v, src.f.parent[n], j - 1)
  }

  /** One step, by the entries. */
  lemma {:induction false} VisibleStep(src: Source, v: A.Attribute, n: Node, k: nat)
    requires SoundSource(src) && n in src.f.parent && Grounded(src.f.parent, n, k) && v in VISIBILITY
    ensures v in L.Final(src, n, k) <==>
      || SaysFirst(src, n, v)
      || ((forall w :: w in VISIBILITY ==> !SaysFirst(src, n, w)) && Inherits(src.f, n) && v in L.Final(src, src.f.parent[n], k - 1))
  {
    hide OwnOf, L.Final, SaysFirst, A.Rivals;
    VisibilityStep(src, n, k);
    forall w | w in VISIBILITY ensures w in OwnOf(src, n) <==> SaysFirst(src, n, w) {
      VisibilityIsClique(w);
      OwnIsFirst(src, n, w);
    }
    var own := Of(VISIBILITY, OwnOf(src, n));
    assert v in L.Final(src, n, k) <==> v in Of(VISIBILITY, L.Final(src, n, k));
    assert v in own <==> SaysFirst(src, n, v);
    assert own == {} <==> forall w :: w in VISIBILITY ==> !SaysFirst(src, n, w) by {
      if own != {} {
        var w :| w in own;
        assert SaysFirst(src, n, w);
      }
      if w :| w in VISIBILITY && SaysFirst(src, n, w) {
        assert w in own;
      }
    }
  }

  lemma {:induction false} VisibleDown(src: Source, v: A.Attribute, n: Node, k: nat, j: nat)
    requires SoundSource(src) && n in src.f.parent && Grounded(src.f.parent, n, k) && v in VISIBILITY && VisibleFrom(src, v, n, j)
    ensures v in L.Final(src, n, k)
    decreases j
  {
    hide L.Final, SaysFirst;
    VisibleStep(src, v, n, k);
    if j > 0 {
      VisibleDown(src, v, src.f.parent[n], k - 1, j - 1);
    }
  }

  lemma {:induction false} VisibleUp(src: Source, v: A.Attribute, n: Node, k: nat) returns (j: nat)
    requires SoundSource(src) && n in src.f.parent && Grounded(src.f.parent, n, k) && v in VISIBILITY && v in L.Final(src, n, k)
    ensures VisibleFrom(src, v, n, j)
    decreases k
  {
    hide L.Final, SaysFirst;
    VisibleStep(src, v, n, k);
    if SaysFirst(src, n, v) {
      j := 0;
    } else {
      j := VisibleUp(src, v, src.f.parent[n], k - 1);
      j := j + 1;
    }
  }

  /** A prepared node is public, private or protected exactly when the nearest list at or above it, below the package
      or the program, that says one of the three says that one first. */
  lemma {:induction false} VisibilityByEntries(src: Source, v: A.Attribute, n: Node, k: nat)
    requires SoundSource(src) && n in src.f.parent && Grounded(src.f.parent, n, k) && v in VISIBILITY
    ensures v in L.Final(src, n, k) <==> exists j: nat :: VisibleFrom(src, v, n, j)
    ensures SaysFirst(src, n, v) ==> Of(VISIBILITY, L.Final(src, n, k)) == {v}
  {
    hide L.Final, VisibleFrom, A.Rivals;
    if v in L.Final(src, n, k) {
      var j := VisibleUp(src, v, n, k);
    }
    if j: nat :| VisibleFrom(src, v, n, j) {
      VisibleDown(src, v, n, k, j);
    }
    if SaysFirst(src, n, v) {
      OnlyOneVisible(src, v, n, k);
    }
  }

  lemma {:induction false} OnlyOneVisible(src: Source, v: A.Attribute, n: Node, k: nat)
    requires SoundSource(src) && n in src.f.parent && Grounded(src.f.parent, n, k) && v in VISIBILITY && SaysFirst(src, n, v)
    ensures Of(VISIBILITY, L.Final(src, n, k)) == {v}
  {
    hide L.Final, SaysFirst, A.Rivals;
    VisibleStep(src, v, n, k);
    FinalIsConsistent(src, n, k);
    VisibilityIsClique(v);
    assert A.Rivals(v) !! L.Final(src, n, k);
  }

  /** The list of the node `j` steps above, from which `n` inherits, says FALSE before TRUE. */
  ghost predicate FalseFrom(src: Source, n: Node, j: nat)
    requires SoundSource(src) && n in src.f.parent
    decreases j
  {
    if j == 0 then SaysFirst(src, n, A.False) else Inherits(src.f, n) && FalseFrom(src, src.f.parent[n], j - 1)
  }

  lemma {:induction false} FalseFromIs(src: Source, n: Node, j: nat)
    requires SoundSource(src) && n in src.f.parent
    ensures FalseFrom(src, n, j) <==> SaysFalse(src, n, j)
    decreases j
  {
    hide OwnOf, SaysFirst, A.Rivals, Clique;
    VisibilityIsClique(A.Public);
    if j == 0 {
      OwnIsFirst(src, n, A.False);
    } else if Inherits(src.f, n) {
      FalseFromIs(src, src.f.parent[n], j - 1);
    }
  }

  /** A prepared node is false exactly when a list at or above it, below the package or the program, says FALSE before TRUE. */
  lemma {:induction false} FalseByEntries(src: Source, n: Node, k: nat)
    requires SoundSource(src) && n in src.f.parent && Grounded(src.f.parent, n, k)
    ensures A.False in L.Final(src, n, k) <==> exists j: nat :: FalseFrom(src, n, j)
  {
    hide L.Final, FalseFrom, SaysFalse;
    FalseComesDown(src, n, k);
    if j: nat :| FalseFrom(src, n, j) {
      FalseFromIs(src, n, j);
    }
    if j: nat :| SaysFalse(src, n, j) {
      FalseFromIs(src, n, j);
    }
  }
}
