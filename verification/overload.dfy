/** Choosing a function among the overloads that match a call. */
module Overload {
  import opened Sequences
  import opened OrderedMaps
  import NodeTree

  type Node = NodeTree.Node

  /** The children of the parameter list: the arguments of the call, and one match node per
      candidate with the depth of each parameter; the list is empty without a prototype. */
  datatype Child = Argument(node: Node) | ParamMatch(node: Node, depths: seq<Depth>)

  /** From MATCH_NOT_FOUND to MATCH_LOWEST_DEPTH: differences fit an `int`. */
  type Depth = d: int | 0 <= d <= 0x3FFF_FFFF

  datatype Verdict = KeepBest | TakeMatch | Undecided

  predicate Shallower(a: seq<Depth>, b: seq<Depth>) {
    exists i :: 0 <= i < |a| && i < |b| && a[i] < b[i]
  }

  /** The comparison before the tie-break. */
  function Compare(best: Child, candidate: Child): Verdict
    requires best.ParamMatch? && candidate.ParamMatch?
  {
    if best.depths == [] then if candidate.depths == [] then Undecided else TakeMatch
    else if candidate.depths == [] then KeepBest
    else if Shallower(best.depths, candidate.depths) == Shallower(candidate.depths, best.depths) then Undecided
    else if Shallower(candidate.depths, best.depths) then TakeMatch
    else KeepBest
  }

  // ------------------------------------------------------------------
  //  The tournament
  // ------------------------------------------------------------------

  /** The candidate that is left after the ones in `s`: a tie keeps the first one. */
  function Best(s: seq<Child>): (r: Option<Child>)
    ensures r.Some? ==> r.value in s && r.value.ParamMatch?
    ensures r.None? ==> forall c :: c in s ==> c.Argument?
  {
    if s == [] then None
    else
      var b, c := Best(s[..|s| - 1]), s[|s| - 1];
      if c.Argument? then b
      else if b.None? then Some(c)
      else if Compare(b.value, c) == TakeMatch then Some(c) else b
  }

  /** Whether `c`, coming after `s`, meets the best of `s` with that verdict. */
  predicate Meets(s: seq<Child>, c: Child, v: Verdict) {
    c.ParamMatch? && Best(s).Some? && Compare(Best(s).value, c) == v
  }

  /** How many times the best candidate was replaced. */
  function Takes(s: seq<Child>): nat {
    if s == [] then 0
    else Takes(s[..|s| - 1]) + if Meets(s[..|s| - 1], s[|s| - 1], TakeMatch) then 1 else 0
  }

  /** The candidate that made the first replacement. */
  function FirstWinner(s: seq<Child>): Option<Child> {
    if s == [] then None
    else if FirstWinner(s[..|s| - 1]).Some? then FirstWinner(s[..|s| - 1])
    else if Meets(s[..|s| - 1], s[|s| - 1], TakeMatch) then Some(s[|s| - 1])
    else None
  }

  /** There was a replacement, and no argument since the last one. */
  predicate JustTook(s: seq<Child>) {
    s != [] && s[|s| - 1].ParamMatch?
    && (Meets(s[..|s| - 1], s[|s| - 1], TakeMatch) || JustTook(s[..|s| - 1]))
  }

  /** The best candidate is no longer in the list: it was deleted in the place of the one before. */
  predicate Loose(s: seq<Child>) {
    s != [] && if Meets(s[..|s| - 1], s[|s| - 1], TakeMatch) then JustTook(s[..|s| - 1]) else Loose(s[..|s| - 1])
  }

  /** No comparison was left without a verdict. The tie-break has one when the call is in a class and the best
      candidate is still in the list. */
  predicate AllDecided(inClass: bool, s: seq<Child>) {
    s == []
    || (AllDecided(inClass, s[..|s| - 1])
        && (Meets(s[..|s| - 1], s[|s| - 1], Undecided) ==> inClass && !Loose(s[..|s| - 1])))
  }

  /** The arguments, and `best`. */
  function Tidy(s: seq<Child>, best: Option<Child>): seq<Child> {
    if s == [] then []
    else Tidy(s[..|s| - 1], best) + if s[|s| - 1].Argument? || Some(s[|s| - 1]) == best then [s[|s| - 1]] else []
  }

  /** How the parser and the search for candidates fill the list. */
  predicate ArgumentsFirst(s: seq<Child>) {
    forall i, j :: 0 <= i < j < |s| && s[i].ParamMatch? ==> s[j].ParamMatch?
  }

  // ------------------------------------------------------------------
  //  One child after the other
  // ------------------------------------------------------------------

  lemma {:induction false} NothingSeen(inClass: bool, s: seq<Child>)
    ensures Best(s[..0]) == None && Takes(s[..0]) == 0 && AllDecided(inClass, s[..0]) && Tidy(s[..0], None) == []
  {
  }

  lemma {:induction false} Grow(s: seq<Child>, i: nat)
    requires i < |s|
    ensures s[..i + 1][..i] == s[..i] && s[..i + 1][i] == s[i]
  {
  }

  /** One more argument. */
  lemma {:induction false} SeeArgument(inClass: bool, s: seq<Child>, i: nat)
    requires i < |s| && s[i].Argument?
    ensures Best(s[..i + 1]) == Best(s[..i]) && Takes(s[..i + 1]) == Takes(s[..i])
    ensures AllDecided(inClass, s[..i + 1]) == AllDecided(inClass, s[..i])
    ensures FirstWinner(s[..i + 1]) == FirstWinner(s[..i])
    ensures !JustTook(s[..i + 1]) && Loose(s[..i + 1]) == Loose(s[..i])
    ensures forall b: Option<Child> :: Tidy(s[..i + 1], b) == Tidy(s[..i], b) + [s[i]]
  {
    Grow(s, i);
  }

  lemma {:induction false} SeeMatch(inClass: bool, s: seq<Child>, i: nat)
    requires i < |s| && s[i].ParamMatch?
    ensures var b := Best(s[..i]);
      if b == None then
        Best(s[..i + 1]) == Some(s[i]) && Takes(s[..i + 1]) == Takes(s[..i])
        && AllDecided(inClass, s[..i + 1]) == AllDecided(inClass, s[..i])
      else
        var v := Compare(b.value, s[i]);
        && Best(s[..i + 1]) == (if v == TakeMatch then Some(s[i]) else b)
        && Takes(s[..i + 1]) == Takes(s[..i]) + (if v == TakeMatch then 1 else 0)
        && AllDecided(inClass, s[..i + 1]) == (AllDecided(inClass, s[..i]) && (v == Undecided ==> inClass && !Loose(s[..i])))
  {
    Grow(s, i);
  }

  lemma {:induction false} SeeWinner(s: seq<Child>, i: nat)
    requires i < |s| && s[i].ParamMatch?
    ensures var took := Meets(s[..i], s[i], TakeMatch);
      && (JustTook(s[..i + 1]) <==> took || JustTook(s[..i]))
      && (Loose(s[..i + 1]) <==> if took then JustTook(s[..i]) else Loose(s[..i]))
      && FirstWinner(s[..i + 1])
         == if FirstWinner(s[..i]).Some? then FirstWinner(s[..i]) else if took then Some(s[i]) else None
  {
    Grow(s, i);
  }

  /** Before there is a candidate nothing was replaced. */
  lemma {:induction false} NobodyLoose(s: seq<Child>)
    requires Best(s).None?
    ensures !JustTook(s) && !Loose(s) && Takes(s) == 0 && FirstWinner(s) == None
  {
    if s != [] {
      NobodyLoose(s[..|s| - 1]);
    }
  }

  lemma {:induction false} FirstWinnerIs(s: seq<Child>)
    ensures FirstWinner(s).Some? <==> Takes(s) >= 1
    ensures FirstWinner(s).Some? ==> FirstWinner(s).value in s && FirstWinner(s).value.ParamMatch?
    ensures Takes(s) == 1 ==> FirstWinner(s) == Best(s)
  {
    if s != [] {
      FirstWinnerIs(s[..|s| - 1]);
    }
  }

  /** A candidate that is not there changes nothing. */
  lemma {:induction false} TidyOther(s: seq<Child>, b: Option<Child>, c: Option<Child>)
    requires (b.Some? ==> b.value !in s) && (c.Some? ==> c.value !in s)
    ensures Tidy(s, b) == Tidy(s, c)
  {
    if s != [] {
      TidyOther(s[..|s| - 1], b, c);
    }
  }

  /** Deleting the best of the first ones leaves the arguments. */
  lemma {:induction false} TidyWithout(s: seq<Child>, b: Child, k: nat)
    requires NoDup(s) && b.ParamMatch? && b in s
    requires k < |Tidy(s, Some(b))| && Tidy(s, Some(b))[k] == b
    ensures Tidy(s, Some(b))[..k] + Tidy(s, Some(b))[k + 1..] == Tidy(s, None)
  {
    var t, c := s[..|s| - 1], s[|s| - 1];
    var r := Tidy(t, Some(b));
    if c == b {
      TidyOther(t, Some(b), None);
      TidyHasArguments(t);
      forall j | 0 <= j < |r| ensures r[j] != b {
        assert r[j] in Tidy(t, None);
      }
      assert (r + [b])[..k] + (r + [b])[k + 1..] == r;
    } else {
      assert b in t;
      if c.Argument? {
        assert k < |r|;
        TidyWithout(t, b, k);
        assert (r + [c])[..k] + (r + [c])[k + 1..] == r[..k] + r[k + 1..] + [c];
      } else {
        TidyWithout(t, b, k);
      }
    }
  }

  lemma {:induction false} TidyHasArguments(s: seq<Child>)
    ensures forall c :: c in Tidy(s, None) ==> c.Argument?
  {
    if s != [] {
      TidyHasArguments(s[..|s| - 1]);
    }
  }

  lemma {:induction false} TidyHasOnlyBest(s: seq<Child>, best: Option<Child>, c: Child)
    requires c.ParamMatch? && Some(c) != best
    ensures c !in Tidy(s, best)
  {
    if s != [] {
      TidyHasOnlyBest(s[..|s| - 1], best, c);
    }
  }

  function Cut(c: seq<Child>, k: nat): (r: seq<Child>)
    requires k < |c|
    ensures |r| == |c| - 1
  {
    c[..k] + c[k + 1..]
  }

  lemma {:induction false} FirstSeen(s: seq<Child>, i: nat)
    requires NoDup(s) && i < |s| && s[i].ParamMatch?
    ensures Tidy(s[..i + 1], Some(s[i])) == Tidy(s[..i], None) + [s[i]]
  {
    assert s[..i + 1][..i] == s[..i] && s[..i + 1][i] == s[i];
    TidyOther(s[..i], Some(s[i]), None);
  }

  /** The first replacement deletes the previous best, which stands at `prev`. */
  lemma {:induction false} FirstTake(s: seq<Child>, i: nat, c: seq<Child>, idx: nat, prev: nat, b: Child)
    requires NoDup(s) && i < |s| && s[i].ParamMatch? && b.ParamMatch? && b in s[..i]
    requires idx < |c| && c[idx] == s[i] && prev < idx && c[prev] == b && c[..idx] == Tidy(s[..i], Some(b))
    ensures Cut(c, prev)[..idx] == Tidy(s[..i + 1], Some(s[i])) && Cut(c, prev)[idx..] == c[idx + 1..]
    ensures Cut(c, prev)[idx - 1] == s[i]
  {
    var m, t := s[i], s[..i];
    assert s[..i + 1][..i] == t && s[..i + 1][i] == m;
    TidyWithout(t, b, prev);
    TidyOther(t, Some(m), None);
    assert Cut(c, prev)[..idx] == c[..idx][..prev] + c[..idx][prev + 1..] + [m];
  }

  lemma {:induction false} CutKeeps(c: seq<Child>, k: nat, idx: nat, w: nat)
    requires k <= idx < |c|
    ensures Cut(c, k)[idx..] == c[idx + 1..] && (w < k ==> Cut(c, k)[w] == c[w])
  {
  }

  lemma {:induction false} Next(c: seq<Child>, idx: nat, s: seq<Child>, i: nat)
    requires idx < |c| && i < |s| && c[idx..] == s[i..]
    ensures c[idx] == s[i] && c[idx + 1..] == s[i + 1..] && c[..idx + 1] == c[..idx] + [s[i]]
  {
    assert c[idx] == c[idx..][0] && c[idx + 1..] == c[idx..][1..] && s[i + 1..] == s[i..][1..];
  }

  /** An earlier child is not this one. */
  predicate Earlier(s: seq<Child>, i: nat, x: Child) {
    exists j :: 0 <= j < i && j < |s| && s[j] == x
  }

  lemma {:induction false} StillEarlier(s: seq<Child>, i: nat, x: Child)
    requires NoDup(s) && i < |s|
    ensures Earlier(s, i, x) ==> x != s[i] && Earlier(s, i + 1, x)
    ensures Earlier(s, i + 1, s[i])
    ensures x in s[..i] ==> Earlier(s, i, x)
  {
    if x in s[..i] {
      var j :| 0 <= j < i && s[..i][j] == x;
      assert s[j] == x;
    }
  }

  /** A candidate that loses is deleted where it is. */
  lemma {:induction false} Lost(s: seq<Child>, i: nat, c: seq<Child>, idx: nat, b: Child)
    requires NoDup(s) && i < |s| && s[i].ParamMatch? && b in s[..i] && idx < |c|
    ensures Tidy(s[..i + 1], Some(b)) == Tidy(s[..i], Some(b))
    ensures Cut(c, idx)[..idx] == c[..idx] && Cut(c, idx)[idx..] == c[idx + 1..]
  {
    assert s[..i + 1][..i] == s[..i] && s[..i + 1][i] == s[i];
    var j :| 0 <= j < i && s[j] == b;
  }

  // ------------------------------------------------------------------
  //  The scan
  // ------------------------------------------------------------------

  /** The variables of the scan, and the place where the first winner stays. */
  datatype Scan = Scan(children: seq<Child>, idx: nat, prev: int, best: Option<Child>, found: bool, w: nat)

  /** The scan has seen the first `i` of the children `s`. After a replacement `prev` is one too far;
      the list is still right after the first one, and cannot be any more after the second one. */
  ghost predicate Listed(inClass: bool, s: seq<Child>, i: nat, x: Scan) {
    && i <= |s| && x.idx <= |x.children| && i + (|x.children| - x.idx) == |s| && x.children[x.idx..] == s[i..]
    && x.best == Best(s[..i]) && x.found == AllDecided(inClass, s[..i])
    && (x.best.Some? ==> 0 <= x.prev <= x.idx && x.best.value in s)
    && (x.best.None? ==> Takes(s[..i]) == 0)
    && (Takes(s[..i]) <= 1 ==> x.children[..x.idx] == Tidy(s[..i], x.best))
    && (x.best.Some? && Takes(s[..i]) == 0 ==> x.prev < x.idx && x.children[x.prev] == x.best.value)
    && (x.best.Some? && Takes(s[..i]) >= 1 ==> x.w < x.prev && x.w < |x.children| && Some(x.children[x.w]) == FirstWinner(s[..i]))
    && (x.best.Some? && Takes(s[..i]) >= 2 ==> FirstWinner(s[..i]) != x.best)
  }

  /** Where the best candidate is. */
  ghost predicate Kept(s: seq<Child>, i: nat, x: Scan) {
    x.best.Some? ==>
      && i <= |s| && Earlier(s, i, x.best.value)
      && (x.prev == x.idx <==> JustTook(s[..i]))
      && (x.best.value in x.children <==> !Loose(s[..i]))
  }

  /** When the arguments come first, the first winner is the one that stays. */
  ghost predicate LeftBehind(s: seq<Child>, i: nat, x: Scan) {
    x.best.Some? && i <= |s| && Takes(s[..i]) >= 1 && ArgumentsFirst(s) ==>
      x.prev == x.idx <= |x.children| && x.children[..x.idx] == Tidy(s[..i], FirstWinner(s[..i]))
  }

  ghost predicate Scanned(inClass: bool, s: seq<Child>, i: nat, x: Scan) {
    Listed(inClass, s, i, x) && Kept(s, i, x) && LeftBehind(s, i, x)
  }

  lemma {:induction false} ScanStart(inClass: bool, s: seq<Child>)
    ensures Scanned(inClass, s, 0, Scan(s, 0, -1, None, true, 0))
  {
    NothingSeen(inClass, s);
  }

  /** What the scan looks at next. */
  lemma {:induction false} ScanNext(inClass: bool, s: seq<Child>, i: nat, x: Scan)
    requires Scanned(inClass, s, i, x)
    ensures x.idx <= |x.children|
    ensures x.idx < |x.children| ==> i < |s| && x.children[x.idx] == s[i] && s[i] in s
    ensures x.best.Some? ==> 0 <= x.prev <= x.idx && x.best.value in s && x.best.value.ParamMatch?
    ensures x.best.Some? ==> (x.best.value in x.children <==> !Loose(s[..i]))
  {
    if x.idx < |x.children| {
      Next(x.children, x.idx, s, i);
    }
  }

  lemma {:induction false} ScanArgument(inClass: bool, s: seq<Child>, i: nat, x: Scan)
    requires Scanned(inClass, s, i, x) && NoDup(s) && x.idx < |x.children| && x.children[x.idx].Argument?
    ensures Scanned(inClass, s, i + 1, x.(idx := x.idx + 1))
  {
    hide Best, Takes, AllDecided, Tidy, NoDup, Earlier, JustTook, Loose, FirstWinner, ArgumentsFirst;
    Next(x.children, x.idx, s, i);
    SeeArgument(inClass, s, i);
    if x.best.Some? {
      StillEarlier(s, i, x.best.value);
      NoLaterArgument(s, i, x.best.value);
    }
  }

  lemma {:induction false} NoLaterArgument(s: seq<Child>, i: nat, b: Child)
    requires i < |s| && Earlier(s, i, b) && b.ParamMatch?
    ensures ArgumentsFirst(s) ==> s[i].ParamMatch?
  {
  }

  lemma {:induction false} ScanFirst(inClass: bool, s: seq<Child>, i: nat, x: Scan)
    requires Scanned(inClass, s, i, x) && NoDup(s) && x.idx < |x.children| && x.children[x.idx].ParamMatch? && x.best.None?
    ensures Scanned(inClass, s, i + 1, x.(idx := x.idx + 1, prev := x.idx, best := Some(x.children[x.idx])))
  {
    hide Best, Takes, AllDecided, Tidy, NoDup, Earlier, JustTook, Loose, FirstWinner;
    Next(x.children, x.idx, s, i);
    SeeMatch(inClass, s, i);
    SeeWinner(s, i);
    NobodyLoose(s[..i]);
    FirstSeen(s, i);
    StillEarlier(s, i, s[i]);
  }

  /** A candidate that wins: the previous best is deleted if `prev` is right. */
  lemma {:induction false} ScanTake(inClass: bool, s: seq<Child>, i: nat, x: Scan) returns (y: Scan)
    requires Scanned(inClass, s, i, x) && NoDup(s) && NoDup(x.children)
    requires x.idx < |x.children| && x.children[x.idx].ParamMatch?
    requires x.best.Some? && x.best.value.ParamMatch? && Compare(x.best.value, x.children[x.idx]) == TakeMatch
    ensures 0 <= x.prev < |x.children| && Scanned(inClass, s, i + 1, y)
    ensures y.children == Cut(x.children, x.prev) && y.idx == x.idx && y.prev == x.idx && y.best == Some(x.children[x.idx]) && y.found == x.found
  {
    y := ListedTake(inClass, s, i, x);
    KeptTake(inClass, s, i, x, y);
    LeftTake(inClass, s, i, x, y);
  }

  lemma {:induction false} ListedTake(inClass: bool, s: seq<Child>, i: nat, x: Scan) returns (y: Scan)
    requires Listed(inClass, s, i, x) && NoDup(s) && x.idx < |x.children| && x.children[x.idx].ParamMatch?
    requires x.best.Some? && x.best.value.ParamMatch? && Compare(x.best.value, x.children[x.idx]) == TakeMatch
    ensures 0 <= x.prev < |x.children| && Listed(inClass, s, i + 1, y)
    ensures y.children == Cut(x.children, x.prev) && y.idx == x.idx && y.prev == x.idx && y.best == Some(x.children[x.idx]) && y.found == x.found
  {
    hide Best, Takes, AllDecided, Tidy, NoDup, FirstWinner, Cut, JustTook, Loose;
    Next(x.children, x.idx, s, i);
    SeeMatch(inClass, s, i);
    SeeWinner(s, i);
    FirstWinnerIs(s[..i]);
    if FirstWinner(s[..i]).Some? {
      OneFirstWinner(s, i);
    }
    CutKeeps(x.children, x.prev, x.idx, x.w);
    y := x.(children := Cut(x.children, x.prev), prev := x.idx, best := Some(x.children[x.idx]));
    if Takes(s[..i]) == 0 {
      BestIsIn(s, i);
      FirstTake(s, i, x.children, x.idx, x.prev, x.best.value);
      y := y.(w := x.idx - 1);
    }
  }

  lemma {:induction false} OneFirstWinner(s: seq<Child>, i: nat)
    requires NoDup(s) && i < |s| && FirstWinner(s[..i]).Some?
    ensures FirstWinner(s[..i]) != Some(s[i])
  {
    FirstWinnerIs(s[..i]);
    var j :| 0 <= j < i && s[..i][j] == FirstWinner(s[..i]).value;
    assert s[j] == FirstWinner(s[..i]).value;
  }

  lemma {:induction false} KeptTake(inClass: bool, s: seq<Child>, i: nat, x: Scan, y: Scan)
    requires Listed(inClass, s, i, x) && Kept(s, i, x) && NoDup(s) && NoDup(x.children)
    requires x.idx < |x.children| && x.children[x.idx].ParamMatch?
    requires x.best.Some? && x.best.value.ParamMatch? && Compare(x.best.value, x.children[x.idx]) == TakeMatch
    requires 0 <= x.prev < |x.children| && y.children == Cut(x.children, x.prev)
    requires y.idx == x.idx && y.prev == x.idx && y.best == Some(x.children[x.idx])
    ensures Kept(s, i + 1, y)
  {
    hide Best, Takes, AllDecided, Tidy, NoDup, Earlier, JustTook, Loose, FirstWinner, Cut;
    Next(x.children, x.idx, s, i);
    SeeWinner(s, i);
    StillEarlier(s, i, s[i]);
    CutAway(x.children, x.prev, x.idx);
  }

  lemma {:induction false} InCut(c: seq<Child>, k: nat, b: Child)
    requires NoDup(c) && k < |c|
    ensures b in Cut(c, k) <==> b in c && b != c[k]
  {
    var r := Cut(c, k);
    if b in c && b != c[k] {
      var j :| 0 <= j < |c| && c[j] == b;
      assert r[if j < k then j else j - 1] == b;
    }
    if b in r {
      var j :| 0 <= j < |r| && r[j] == b;
      assert c[if j < k then j else j + 1] == b;
    }
  }

  lemma {:induction false} CutAway(c: seq<Child>, k: nat, j: nat)
    requires NoDup(c) && k < |c| && j < |c|
    ensures c[j] in Cut(c, k) <==> j != k
  {
    hide Cut;
    InCut(c, k, c[j]);
  }

  lemma {:induction false} LeftTake(inClass: bool, s: seq<Child>, i: nat, x: Scan, y: Scan)
    requires Listed(inClass, s, i, x) && LeftBehind(s, i, x) && NoDup(s) && NoDup(x.children)
    requires x.idx < |x.children| && x.children[x.idx].ParamMatch?
    requires x.best.Some? && x.best.value.ParamMatch? && Compare(x.best.value, x.children[x.idx]) == TakeMatch
    requires Listed(inClass, s, i + 1, y) && 0 <= x.prev < |x.children| && y.children == Cut(x.children, x.prev)
    requires y.idx == x.idx && y.prev == x.idx && y.best == Some(x.children[x.idx])
    ensures LeftBehind(s, i + 1, y)
  {
    hide Best, Takes, AllDecided, Tidy, NoDup, JustTook, Loose, FirstWinner, Cut, ArgumentsFirst;
    Next(x.children, x.idx, s, i);
    SeeMatch(inClass, s, i);
    SeeWinner(s, i);
    FirstWinnerIs(s[..i]);
    FirstWinnerIs(s[..i + 1]);
    if Takes(s[..i]) >= 1 && ArgumentsFirst(s) {
      LostToo(s, i, x.children, x.idx, FirstWinner(s[..i]).value);
    }
  }

  /** Deleting the candidate at `idx`, be it the new best, leaves the list as it was. */
  lemma {:induction false} LostToo(s: seq<Child>, i: nat, c: seq<Child>, idx: nat, b: Child)
    requires NoDup(s) && i < |s| && s[i].ParamMatch? && b in s[..i] && idx < |c|
    ensures Tidy(s[..i + 1], Some(b)) == Tidy(s[..i], Some(b))
    ensures Cut(c, idx)[..idx] == c[..idx]
  {
    Lost(s, i, c, idx, b);
  }

  lemma {:induction false} BestIsIn(s: seq<Child>, i: nat)
    requires i <= |s| && Best(s[..i]).Some?
    ensures Best(s[..i]).value in s[..i] && Best(s[..i]).value in s
  {
    assert forall c :: c in s[..i] ==> c in s;
  }

  /** A candidate that does not win is deleted. */
  lemma {:induction false} ScanKeep(inClass: bool, s: seq<Child>, i: nat, x: Scan, y: Scan)
    requires Scanned(inClass, s, i, x) && NoDup(s) && NoDup(x.children)
    requires x.idx < |x.children| && x.children[x.idx].ParamMatch?
    requires x.best.Some? && x.best.value.ParamMatch? && Compare(x.best.value, x.children[x.idx]) != TakeMatch
    requires y == x.(children := Cut(x.children, x.idx),
                     found := x.found && (Compare(x.best.value, x.children[x.idx]) == Undecided ==> inClass && !Loose(s[..i])))
    ensures Scanned(inClass, s, i + 1, y)
  {
    ListedKeep(inClass, s, i, x, y);
    KeptKeep(inClass, s, i, x, y);
    LeftKeep(inClass, s, i, x, y);
  }

  lemma {:induction false} ListedKeep(inClass: bool, s: seq<Child>, i: nat, x: Scan, y: Scan)
    requires Listed(inClass, s, i, x) && NoDup(s)
    requires x.idx < |x.children| && x.children[x.idx].ParamMatch?
    requires x.best.Some? && x.best.value.ParamMatch? && Compare(x.best.value, x.children[x.idx]) != TakeMatch
    requires y == x.(children := Cut(x.children, x.idx),
                     found := x.found && (Compare(x.best.value, x.children[x.idx]) == Undecided ==> inClass && !Loose(s[..i])))
    ensures Listed(inClass, s, i + 1, y)
  {
    hide Best, Takes, AllDecided, Tidy, NoDup, FirstWinner, Cut, JustTook, Loose;
    Next(x.children, x.idx, s, i);
    SeeMatch(inClass, s, i);
    SeeWinner(s, i);
    FirstWinnerIs(s[..i]);
    BestIsIn(s, i);
    CutKeeps(x.children, x.idx, x.idx, x.w);
    Lost(s, i, x.children, x.idx, x.best.value);
    KeptBefore(x.children, x.idx, x.prev);
  }

  lemma {:induction false} KeptKeep(inClass: bool, s: seq<Child>, i: nat, x: Scan, y: Scan)
    requires Listed(inClass, s, i, x) && Kept(s, i, x) && NoDup(s) && NoDup(x.children)
    requires x.idx < |x.children| && x.children[x.idx].ParamMatch?
    requires x.best.Some? && x.best.value.ParamMatch? && Compare(x.best.value, x.children[x.idx]) != TakeMatch
    requires y.children == Cut(x.children, x.idx) && y.idx == x.idx && y.prev == x.prev && y.best == x.best
    ensures Kept(s, i + 1, y)
  {
    hide Best, Takes, AllDecided, Tidy, NoDup, Earlier, JustTook, Loose, FirstWinner, Cut;
    Next(x.children, x.idx, s, i);
    SeeWinner(s, i);
    StillEarlier(s, i, x.best.value);
    InCut(x.children, x.idx, x.best.value);
  }

  lemma {:induction false} LeftKeep(inClass: bool, s: seq<Child>, i: nat, x: Scan, y: Scan)
    requires Listed(inClass, s, i, x) && LeftBehind(s, i, x) && NoDup(s)
    requires x.idx < |x.children| && x.children[x.idx].ParamMatch?
    requires x.best.Some? && x.best.value.ParamMatch? && Compare(x.best.value, x.children[x.idx]) != TakeMatch
    requires y.children == Cut(x.children, x.idx) && y.idx == x.idx && y.prev == x.prev && y.best == x.best
    ensures LeftBehind(s, i + 1, y)
  {
    hide Best, Takes, AllDecided, Tidy, NoDup, JustTook, Loose, FirstWinner, Cut, ArgumentsFirst;
    Next(x.children, x.idx, s, i);
    SeeMatch(inClass, s, i);
    SeeWinner(s, i);
    FirstWinnerIs(s[..i]);
    if Takes(s[..i]) >= 1 && ArgumentsFirst(s) {
      LostToo(s, i, x.children, x.idx, FirstWinner(s[..i]).value);
    }
  }

  lemma {:induction false} KeptBefore(c: seq<Child>, idx: nat, prev: int)
    requires idx < |c|
    ensures 0 <= prev < idx ==> Cut(c, idx)[prev] == c[prev]
  {
  }

  /** What is left at the end. The list is as it was meant to be iff there was at most one replacement. */
  lemma {:induction false} ScanEnd(inClass: bool, s: seq<Child>, i: nat, x: Scan)
    requires Scanned(inClass, s, i, x) && NoDup(s) && x.idx == |x.children|
    ensures x.best == Best(s) && x.found == AllDecided(inClass, s)
    ensures x.children == Tidy(s, x.best) <==> Takes(s) <= 1
    ensures Takes(s) >= 1 && ArgumentsFirst(s) ==> x.children == Tidy(s, FirstWinner(s))
    ensures x.best.Some? ==> (x.best.value in x.children <==> !Loose(s))
  {
    hide Best, Takes, AllDecided, Tidy, NoDup, Earlier, FirstWinner, JustTook, Loose;
    assert s[..i] == s && x.children[..x.idx] == x.children;
    FirstWinnerIs(s);
    if Takes(s) >= 2 {
      TidyHasOnlyBest(s, x.best, FirstWinner(s).value);
      assert FirstWinner(s).value in x.children;
    }
    if x.best.None? {
      NobodyLoose(s);
    }
  }
}
