/** What the tournament chooses, and what its order of play changes. */
module OverloadLaws {
  import opened Sequences
  import opened OrderedMaps
  import opened Overload

  /** A prototype is better than none; otherwise no parameter may be deeper, and one must be
      shallower. */
  predicate Beats(a: Child, b: Child) {
    && a.ParamMatch? && b.ParamMatch? && a.depths != []
    && (b.depths == [] || (|a.depths| == |b.depths| && (forall i :: 0 <= i < |a.depths| ==> a.depths[i] <= b.depths[i])
                           && exists i :: 0 <= i < |a.depths| && a.depths[i] < b.depths[i]))
  }

  /** All prototypes have the same number of parameters. */
  predicate Uniform(s: seq<Child>) {
    forall i, j :: 0 <= i < |s| && 0 <= j < |s| ==> SamePlay(s[i], s[j])
  }

  predicate SamePlay(a: Child, b: Child) {
    a.ParamMatch? && b.ParamMatch? && a.depths != [] && b.depths != [] ==> |a.depths| == |b.depths|
  }

  /** The comparison is exactly that order, seen from either side. */
  lemma {:induction false} CompareMeans(a: Child, b: Child)
    requires a.ParamMatch? && b.ParamMatch? && SamePlay(a, b)
    ensures Compare(a, b) == KeepBest <==> Beats(a, b)
    ensures Compare(a, b) == TakeMatch <==> Beats(b, a)
    ensures Compare(b, a) == TakeMatch <==> Beats(a, b)
  {
    if a.depths != [] && b.depths != [] {
      NotShallower(a.depths, b.depths);
      NotShallower(b.depths, a.depths);
    }
  }

  lemma {:induction false} NotShallower(a: seq<Depth>, b: seq<Depth>)
    requires |a| == |b|
    ensures !Shallower(b, a) <==> forall i :: 0 <= i < |a| ==> a[i] <= b[i]
    ensures Shallower(a, b) <==> exists i :: 0 <= i < |a| && a[i] < b[i]
  {
    if Shallower(a, b) {
      var i :| 0 <= i < |a| && i < |b| && a[i] < b[i];
    }
  }

  lemma {:induction false} BeatsTransitive(a: Child, b: Child, c: Child)
    requires Beats(a, b) && Beats(b, c)
    ensures Beats(a, c) && a != c
  {
    if c.depths != [] {
      var i :| 0 <= i < |a.depths| && a.depths[i] < b.depths[i];
      assert a.depths[i] < c.depths[i];
    }
  }

  /** `d` beats every other candidate. */
  predicate Dominates(d: Child, s: seq<Child>) {
    d in s && d.ParamMatch? && forall c :: c in s && c.ParamMatch? && c != d ==> Beats(d, c)
  }

  /** No comparison of the tournament falls to the tie-break. */
  predicate Untied(s: seq<Child>) {
    s == []
    || (Untied(s[..|s| - 1])
        && var b, c := Best(s[..|s| - 1]), s[|s| - 1];
           c.ParamMatch? && b.Some? ==> Compare(b.value, c) != Undecided)
  }

  lemma {:induction false} UniformPrefix(s: seq<Child>, b: Child)
    requires Uniform(s) && s != []
    ensures Uniform(s[..|s| - 1])
    ensures b in s ==> SamePlay(b, s[|s| - 1])
  {
    var t := s[..|s| - 1];
    forall i, j | 0 <= i < |t| && 0 <= j < |t| ensures SamePlay(t[i], t[j]) {
      assert SamePlay(s[i], s[j]);
    }
    if b in s {
      var i :| 0 <= i < |s| && s[i] == b;
      assert SamePlay(s[i], s[|s| - 1]);
    }
  }

  /** Without a tie, the candidate that is left beats every other, and an answer is given. */
  lemma {:induction false} WinnerDominates(s: seq<Child>)
    requires Uniform(s) && Untied(s) && Best(s).Some?
    ensures Dominates(Best(s).value, s) && forall inClass :: AllDecided(inClass, s)
  {
    var t, c := s[..|s| - 1], s[|s| - 1];
    assert s == t + [c];
    var b := Best(t);
    UniformPrefix(s, if b.Some? then b.value else c);
    if b.Some? {
      WinnerDominates(t);
      if c.ParamMatch? {
        CompareMeans(b.value, c);
        NewWinner(b.value, t, c);
      }
    } else {
      NobodyYet(t);
    }
  }

  lemma {:induction false} NobodyYet(s: seq<Child>)
    requires Best(s).None?
    ensures forall inClass :: AllDecided(inClass, s)
  {
    if s != [] {
      NobodyYet(s[..|s| - 1]);
    }
  }

  lemma {:induction false} NewWinner(b: Child, t: seq<Child>, c: Child)
    requires Dominates(b, t) && c.ParamMatch?
    ensures Beats(c, b) ==> Dominates(c, t + [c])
    ensures Beats(b, c) ==> Dominates(b, t + [c])
  {
    if Beats(c, b) {
      forall x | x in t && x.ParamMatch? && x != b ensures Beats(c, x) {
        BeatsTransitive(c, b, x);
      }
    }
  }

  /** A candidate that beats every other is chosen, wherever it stands and whatever ties there are
      among the others. */
  lemma {:induction false} DominatorWins(s: seq<Child>, d: Child)
    requires Uniform(s) && Dominates(d, s)
    ensures Best(s) == Some(d)
  {
    var t, c := s[..|s| - 1], s[|s| - 1];
    assert s == t + [c];
    var b := Best(t);
    UniformPrefix(s, if d in t then d else if b.Some? then b.value else c);
    if d in t {
      assert forall x :: x in t ==> x in s;
      DominatorWins(t, d);
      if c.ParamMatch? && c != d {
        CompareMeans(d, c);
      }
    } else if b.Some? {
      assert b.value in s;
      CompareMeans(b.value, d);
    }
  }

  /** The choice does not depend on the order of the candidates: if one order gives no tie, every
      order gives the same best candidate. */
  lemma {:induction false} OrderDoesNotMatter(s: seq<Child>, t: seq<Child>)
    requires Uniform(s) && Untied(s) && Best(s).Some? && multiset(s) == multiset(t)
    ensures Best(t) == Best(s)
  {
    WinnerDominates(s);
    var d := Best(s).value;
    SameMembers(s, t);
    DominatorWins(t, d);
  }

  lemma {:induction false} SameMembers(s: seq<Child>, t: seq<Child>)
    requires multiset(s) == multiset(t) && Uniform(s)
    ensures Uniform(t) && forall d :: Dominates(d, s) ==> Dominates(d, t)
  {
    assert forall c :: c in s <==> c in multiset(s);
    assert forall c :: c in t <==> c in multiset(t);
    forall i, j | 0 <= i < |t| && 0 <= j < |t| ensures SamePlay(t[i], t[j]) {
      assert t[i] in multiset(t) && t[j] in multiset(t);
      var k :| 0 <= k < |s| && s[k] == t[i];
      var l :| 0 <= l < |s| && s[l] == t[j];
      assert SamePlay(s[k], s[l]);
    }
  }

  // ------------------------------------------------------------------
  //  When an answer is given
  // ------------------------------------------------------------------

  /** The comparison of the depths tells any two candidates apart. */
  predicate NoTie(s: seq<Child>) {
    forall a, b :: a in s && b in s && a.ParamMatch? && b.ParamMatch? && a != b ==> Compare(a, b) != Undecided
  }

  /** Three candidates each better than the one before, the last of them in a tie with a fourth. */
  predicate LateTie(a: Child, b: Child, c: Child, d: Child) {
    && a.ParamMatch? && b.ParamMatch? && c.ParamMatch? && d.ParamMatch? && d != a && d != b && d != c
    && Compare(a, b) == TakeMatch && Compare(b, c) == TakeMatch && Compare(c, d) == Undecided
  }

  predicate NoLateTie(s: seq<Child>) {
    forall a, b, c, d :: a in s && b in s && c in s && d in s ==> !LateTie(a, b, c, d)
  }

  lemma {:induction false} TieMeans(inClass: bool, s: seq<Child>)
    requires NoDup(s) && NoTie(s)
    ensures AllDecided(inClass, s)
  {
    if s != [] {
      var t, c := s[..|s| - 1], s[|s| - 1];
      TieMeans(inClass, t);
      if c.ParamMatch? && Best(t).Some? {
        BestIsEarlier(s);
      }
    }
  }

  lemma {:induction false} BestIsEarlier(s: seq<Child>)
    requires NoDup(s) && s != [] && Best(s[..|s| - 1]).Some?
    ensures Best(s[..|s| - 1]).value != s[|s| - 1] && Best(s[..|s| - 1]).value in s
  {
    var b := Best(s[..|s| - 1]).value;
    var i :| 0 <= i < |s| - 1 && s[..|s| - 1][i] == b;
    assert s[i] == b;
  }

  /** After a replacement the best candidate has won against an earlier one. */
  lemma {:induction false} TookFrom(s: seq<Child>) returns (a: Child)
    requires JustTook(s)
    ensures Best(s).Some? && a in s && a.ParamMatch? && Compare(a, Best(s).value) == TakeMatch
  {
    var t := s[..|s| - 1];
    if Meets(t, s[|s| - 1], TakeMatch) {
      a := Best(t).value;
    } else {
      a := TookFrom(t);
    }
  }

  /** A best candidate that is out of the list has won against one that had won itself. */
  lemma {:induction false} LooseFrom(s: seq<Child>) returns (a: Child, b: Child)
    requires Loose(s)
    ensures Best(s).Some? && a in s && b in s && a.ParamMatch? && b.ParamMatch?
    ensures Compare(a, b) == TakeMatch && Compare(b, Best(s).value) == TakeMatch
  {
    var t := s[..|s| - 1];
    if Meets(t, s[|s| - 1], TakeMatch) {
      a := TookFrom(t);
      b := Best(t).value;
    } else {
      a, b := LooseFrom(t);
    }
  }

  lemma {:induction false} NoLateTieDecides(s: seq<Child>)
    requires NoDup(s) && NoLateTie(s)
    ensures AllDecided(true, s)
  {
    if s != [] {
      var t, d := s[..|s| - 1], s[|s| - 1];
      assert s == t + [d];
      NoLateTieDecides(t);
      if Meets(t, d, Undecided) && Loose(t) {
        var a, b := LooseFrom(t);
        assert a in s && b in s && Best(t).value in s && d in s && d !in t;
        assert LateTie(a, b, Best(t).value, d);
      }
    }
  }

  lemma {:induction false} PrefixDecided(inClass: bool, s: seq<Child>, i: nat)
    requires i <= |s| && AllDecided(inClass, s)
    ensures AllDecided(inClass, s[..i])
  {
    if i < |s| {
      assert s[..|s| - 1][..i] == s[..i];
      PrefixDecided(inClass, s[..|s| - 1], i);
    } else {
      assert s[..i] == s;
    }
  }

  lemma {:induction false} TwoDecided(inClass: bool, a: Child, b: Child)
    requires a.ParamMatch? && b.ParamMatch?
    ensures AllDecided(inClass, [a, b]) <==> inClass || Compare(a, b) != Undecided
  {
    assert [a, b][..1] == [a] && [a][..0] == [];
    assert Best([]) == None && Best([a]) == Some(a) && !Loose([]) && !Loose([a]);
    assert AllDecided(inClass, []) && AllDecided(inClass, [a]);
  }

  /** The tie comes when the best candidate is out of the list. */
  lemma {:induction false} FourDecided(a: Child, b: Child, c: Child, d: Child)
    requires LateTie(a, b, c, d)
    ensures Loose([a, b, c]) && !AllDecided(true, [a, b, c, d])
  {
    Three(a, b, c);
    assert [a, b, c, d][..3] == [a, b, c] && [a, b, c][..2] == [a, b] && [a, b][..1] == [a];
    assert Best([a]) == Some(a) && Best([a, b]) == Some(b) by { assert [a][..0] == []; }
    assert JustTook([a, b]);
  }

  lemma {:induction false} CountsOne(s: seq<Child>)
    ensures NoDup(s) <==> forall x :: multiset(s)[x] <= 1
  {
    if s != [] {
      var t, c := s[..|s| - 1], s[|s| - 1];
      assert s == t + [c];
      CountsOne(t);
      if NoDup(s) {
        assert NoDup(t) && c !in t;
      } else if NoDup(t) {
        var i, j :| 0 <= i < j < |s| && s[i] == s[j];
        assert j == |s| - 1 && t[i] == c;
        assert multiset(s)[c] >= 2;
      } else {
        var x :| multiset(t)[x] > 1;
        assert multiset(s)[x] > 1;
      }
    }
  }

  /** A reordering that begins with this one. */
  lemma {:induction false} InFront(s: seq<Child>, a: Child) returns (rest: seq<Child>)
    requires a in s
    ensures multiset(s) == multiset{a} + multiset(rest)
    ensures forall x :: x in s && x != a ==> x in rest
  {
    var i := IndexOf(s, a);
    var l, r := s[..i], s[i + 1..];
    assert s == l + [a] + r;
    rest := l + r;
    assert multiset(rest) == multiset(l) + multiset(r);
    assert multiset(s) == multiset(l) + multiset{a} + multiset(r);
  }

  lemma {:induction false} TwoInFront(s: seq<Child>, a: Child, b: Child) returns (rest: seq<Child>)
    requires a in s && b in s && a != b
    ensures multiset([a, b] + rest) == multiset(s)
  {
    var t := InFront(s, a);
    rest := InFront(t, b);
    assert multiset([a, b] + rest) == multiset{a} + multiset{b} + multiset(rest);
  }

  lemma {:induction false} FourInFront(s: seq<Child>, a: Child, b: Child, c: Child, d: Child) returns (rest: seq<Child>)
    requires a in s && b in s && c in s && d in s && a != b && a != c && a != d && b != c && b != d && c != d
    ensures multiset([a, b, c, d] + rest) == multiset(s)
  {
    var t := InFront(s, a);
    t := InFront(t, b);
    t := InFront(t, c);
    rest := InFront(t, d);
    assert multiset([a, b, c, d] + rest) == multiset{a} + multiset{b} + multiset{c} + multiset{d} + multiset(rest);
  }

  lemma {:induction false} Reordered(s: seq<Child>, t: seq<Child>)
    requires NoDup(s) && multiset(t) == multiset(s)
    ensures NoDup(t) && (NoTie(s) ==> NoTie(t)) && (NoLateTie(s) ==> NoLateTie(t))
  {
    CountsOne(s);
    CountsOne(t);
    assert forall c :: c in t <==> c in multiset(t);
    assert forall c :: c in s <==> c in multiset(s);
  }

  lemma {:induction false} TieIsReported(s: seq<Child>, a: Child, b: Child) returns (t: seq<Child>)
    requires a in s && b in s && a.ParamMatch? && b.ParamMatch? && a != b && Compare(a, b) == Undecided
    ensures multiset(t) == multiset(s) && !AllDecided(false, t)
  {
    var rest := TwoInFront(s, a, b);
    t := [a, b] + rest;
    if AllDecided(false, t) {
      PrefixDecided(false, t, 2);
      assert t[..2] == [a, b];
      TwoDecided(false, a, b);
    }
  }

  lemma {:induction false} LateTieIsReported(s: seq<Child>, a: Child, b: Child, c: Child, d: Child) returns (t: seq<Child>)
    requires a in s && b in s && c in s && d in s && LateTie(a, b, c, d)
    ensures multiset(t) == multiset(s) && !AllDecided(true, t)
  {
    WinsOneWay(a, b);
    WinsOneWay(b, c);
    var rest := FourInFront(s, a, b, c, d);
    t := [a, b, c, d] + rest;
    if AllDecided(true, t) {
      PrefixDecided(true, t, 4);
      assert t[..4] == [a, b, c, d];
      FourDecided(a, b, c, d);
    }
  }

  lemma {:induction false} WinsOneWay(a: Child, b: Child)
    requires a.ParamMatch? && b.ParamMatch? && Compare(a, b) == TakeMatch
    ensures a != b && Compare(b, a) == KeepBest
  {
  }

  /** Outside of a class an answer is given in every order of the candidates exactly when the depths tell
      any two of them apart. In a class the first of two equals is kept, unless it made a second replacement:
      the exact condition is that no candidate with two rising ones below it is in a tie. */
  lemma {:induction false} AnsweredInEveryOrder(inClass: bool, s: seq<Child>)
    requires NoDup(s)
    ensures (forall t: seq<Child> :: multiset(t) == multiset(s) ==> AllDecided(inClass, t))
      <==> if inClass then NoLateTie(s) else NoTie(s)
    ensures NoTie(s) ==> NoLateTie(s)
  {
    hide AllDecided, NoDup, Compare;
    if if inClass then NoLateTie(s) else NoTie(s) {
      forall t: seq<Child> | multiset(t) == multiset(s) ensures AllDecided(inClass, t) {
        Reordered(s, t);
        if inClass {
          NoLateTieDecides(t);
        } else {
          TieMeans(inClass, t);
        }
      }
    } else if inClass {
      var a, b, c, d :| a in s && b in s && c in s && d in s && LateTie(a, b, c, d);
      var t := LateTieIsReported(s, a, b, c, d);
    } else {
      var a, b :| a in s && b in s && a.ParamMatch? && b.ParamMatch? && a != b && Compare(a, b) == Undecided;
      var t := TieIsReported(s, a, b);
    }
  }

  lemma {:induction false} OneParameter(a: Child, b: Child)
    requires a.ParamMatch? && b.ParamMatch? && |a.depths| == |b.depths| == 1
    ensures Compare(a, b)
      == if a.depths[0] < b.depths[0] then KeepBest else if a.depths[0] > b.depths[0] then TakeMatch else Undecided
  {
  }

  /** Four candidates of a call in a class: in this order the third is already out of the list when it
      meets its equal, which is reported; the other way round the first of the two is kept. */
  lemma {:induction false} SecondReplacementLosesTie(a: Child, b: Child, c: Child, d: Child)
    requires a.ParamMatch? && b.ParamMatch? && c.ParamMatch? && d.ParamMatch? && d != c
    requires a.depths == [3] && b.depths == [2] && c.depths == [1] && d.depths == [1]
    ensures LateTie(a, b, c, d) && Loose([a, b, c]) && !AllDecided(true, [a, b, c, d])
    ensures AllDecided(true, [c, d, a, b])
    ensures Best([a, b, c, d]) == Best([c, d, a, b]) == Some(c)
  {
    OneParameter(a, b);
    OneParameter(b, c);
    OneParameter(c, d);
    OneParameter(c, a);
    OneParameter(c, b);
    FourDecided(a, b, c, d);
    assert [a, b, c, d][..3] == [a, b, c] && [c, d, a, b][..3] == [c, d, a];
    Three(a, b, c);
    Three(c, d, a);
    assert [c, d, a][..2] == [c, d] && [c, d][..1] == [c] && [c][..0] == [];
    assert Best([c]) == Some(c) && !Loose([c]) && !Loose([c, d]) && !Loose([c, d, a]);
    TwoDecided(true, c, d);
  }

  /** Outside of a class too: two candidates that cannot be compared are only reported when they meet
      before the one that beats both. */
  lemma {:induction false} AnswerDependsOnOrder(a: Child, b: Child, d: Child)
    requires a.ParamMatch? && b.ParamMatch? && d.ParamMatch?
    requires a.depths == [1, 2] && b.depths == [2, 1] && d.depths == [0, 0]
    ensures AllDecided(false, [d, a, b]) && !AllDecided(false, [a, b, d])
    ensures Best([d, a, b]) == Best([a, b, d]) == Some(d)
  {
    CompareMeans(d, a);
    CompareMeans(d, b);
    assert Beats(d, a) && Beats(d, b) by { assert d.depths[0] < a.depths[0] && d.depths[0] < b.depths[0]; }
    assert Compare(a, b) == Undecided by {
      assert a.depths[0] < b.depths[0] && b.depths[1] < a.depths[1];
    }
    Three(d, a, b);
    Three(a, b, d);
  }

  /** The tournament on three candidates. */
  lemma {:induction false} Three(a: Child, b: Child, c: Child)
    requires a.ParamMatch? && b.ParamMatch? && c.ParamMatch?
    ensures var first := if Compare(a, b) == TakeMatch then b else a;
      && Best([a, b, c]) == Some(if Compare(first, c) == TakeMatch then c else first)
      && (AllDecided(false, [a, b, c]) <==> Compare(a, b) != Undecided && Compare(first, c) != Undecided)
      && AllDecided(true, [a, b, c])
      && Takes([a, b, c])
         == (if Compare(a, b) == TakeMatch then 1 else 0) + (if Compare(first, c) == TakeMatch then 1 else 0)
  {
    assert [a][..0] == [] && [a, b][..1] == [a] && [a, b, c][..2] == [a, b];
    assert Best([]) == None && AllDecided(false, []) && AllDecided(true, []) && !Loose([]) && !JustTook([]);
    assert Best([a]) == Some(a) && Takes([a]) == 0 && AllDecided(false, [a]) && AllDecided(true, [a]) && !Loose([a]) && !JustTook([a]);
  }

  /** When the arguments come first, the best candidate is out of the list from the second replacement on. */
  lemma {:induction false} LooseMeans(s: seq<Child>)
    requires ArgumentsFirst(s)
    ensures Loose(s) <==> Takes(s) >= 2
    ensures JustTook(s) <==> Takes(s) >= 1
  {
    if s != [] {
      var t, c := s[..|s| - 1], s[|s| - 1];
      LooseMeans(t);
      if c.Argument? {
        forall x | x in t ensures x.Argument? {
          var i :| 0 <= i < |t| && t[i] == x;
          assert s[i] == x;
        }
        NobodyLoose(t);
      }
    }
  }

  /** Three candidates, each better than the one before, make two replacements: the parameter
      list is not left tidy, the match node in it is that of the second one. */
  lemma {:induction false} RisingCandidates(a: Child, b: Child, c: Child)
    requires Beats(b, a) && Beats(c, b) && SamePlay(a, b) && SamePlay(b, c)
    ensures Takes([a, b, c]) == 2 && Best([a, b, c]) == Some(c) && FirstWinner([a, b, c]) == Some(b) && Loose([a, b, c])
  {
    CompareMeans(a, b);
    CompareMeans(b, c);
    Three(a, b, c);
    assert [a][..0] == [] && [a, b][..1] == [a] && [a, b, c][..2] == [a, b];
    assert Best([a]) == Some(a) && FirstWinner([]) == None && FirstWinner([a]) == None;
    assert JustTook([a, b]) && FirstWinner([a, b]) == Some(b);
  }
}
