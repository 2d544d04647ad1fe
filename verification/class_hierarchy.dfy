/** The class hierarchy: how far a class is from one it derives from. */
module ClassHierarchy {
  import opened OrderedMaps

  /** A class or an interface. */
  type Cls = nat

  /** One child of a class node: an extends or implements clause with the class each name is
      linked to, or something else. Only an implements clause may hold a list. */
  datatype Child = Clause(name: Option<Cls>) | ClauseList(names: seq<Option<Cls>>) | OtherChild

  type Hierarchy = map<Cls, seq<Child>>

  /** Whether a clause names `s`; `lists` says whether lists are looked into. */
  predicate Mentions(child: Child, s: Cls, lists: bool) {
    (child.Clause? && child.name == Some(s)) || (lists && child.ClauseList? && Some(s) in child.names)
  }

  /** `s` is right above `c`. */
  ghost predicate Super(h: Hierarchy, lists: bool, c: Cls, s: Cls) {
    c in h && exists i :: 0 <= i < |h[c]| && Mentions(h[c][i], s, lists)
  }

  // ------------------------------------------------------------------
  //  Paths
  // ------------------------------------------------------------------

  ghost predicate Closed(h: Hierarchy, lists: bool) {
    forall c, s :: Super(h, lists, c, s) ==> s in h
  }

  /** A chain of classes, each one right above the one before it. */
  ghost predicate Path(h: Hierarchy, lists: bool, p: seq<Cls>) {
    forall i :: 0 <= i < |p| - 1 ==> Super(h, lists, p[i], p[i + 1])
  }

  ghost predicate PathBetween(h: Hierarchy, lists: bool, p: seq<Cls>, c: Cls, t: Cls) {
    Path(h, lists, p) && |p| >= 2 && p[0] == c && p[|p| - 1] == t
  }

  /** `t` is a proper ancestor of `c`. */
  ghost predicate Above(h: Hierarchy, lists: bool, c: Cls, t: Cls) {
    exists p :: PathBetween(h, lists, p, c, t)
  }

  /** No class is its own ancestor, and no link is left dangling. */
  ghost predicate Sound(h: Hierarchy, lists: bool) {
    Closed(h, lists) && forall c :: !Above(h, lists, c, c)
  }

  ghost function Ancestors(h: Hierarchy, lists: bool, c: Cls): set<Cls> {
    set t | t in h && Above(h, lists, c, t)
  }

  lemma {:induction false} StepAbove(h: Hierarchy, lists: bool, c: Cls, s: Cls)
    requires Super(h, lists, c, s)
    ensures Above(h, lists, c, s)
  {
    assert PathBetween(h, lists, [c, s], c, s);
  }

  lemma {:induction false} StepThenPath(h: Hierarchy, lists: bool, c: Cls, p: seq<Cls>, t: Cls)
    requires p != [] && Super(h, lists, c, p[0]) && PathBetween(h, lists, p, p[0], t)
    ensures PathBetween(h, lists, [c] + p, c, t)
  {
    var q := [c] + p;
    forall i | 0 <= i < |q| - 1 ensures Super(h, lists, q[i], q[i + 1]) {
      if i > 0 {
        assert Super(h, lists, p[i - 1], p[i]);
      }
    }
  }

  lemma {:induction false} StepThenAbove(h: Hierarchy, lists: bool, c: Cls, s: Cls, t: Cls)
    requires Super(h, lists, c, s) && Above(h, lists, s, t)
    ensures Above(h, lists, c, t)
  {
    var p :| PathBetween(h, lists, p, s, t);
    StepThenPath(h, lists, c, p, t);
  }

  /** The first step of a path. */
  lemma {:induction false} FirstStep(h: Hierarchy, lists: bool, p: seq<Cls>, c: Cls, t: Cls)
    requires PathBetween(h, lists, p, c, t)
    ensures Super(h, lists, c, p[1])
    ensures if |p| == 2 then p[1] == t else PathBetween(h, lists, p[1..], p[1], t)
  {
    assert Super(h, lists, p[0], p[1]);
    if |p| > 2 {
      var q := p[1..];
      forall i | 0 <= i < |q| - 1 ensures Super(h, lists, q[i], q[i + 1]) {
        assert Super(h, lists, p[i + 1], p[i + 2]);
      }
    }
  }

  /** Going up leaves fewer ancestors. */
  lemma {:induction false} FewerAncestors(h: Hierarchy, lists: bool, c: Cls, s: Cls)
    requires Sound(h, lists) && Super(h, lists, c, s)
    ensures s in h && |Ancestors(h, lists, s)| < |Ancestors(h, lists, c)|
  {
    StepAbove(h, lists, c, s);
    forall t | t in Ancestors(h, lists, s) ensures t in Ancestors(h, lists, c) {
      StepThenAbove(h, lists, c, s, t);
    }
    assert s in Ancestors(h, lists, c) && s !in Ancestors(h, lists, s);
    Smaller(Ancestors(h, lists, s), Ancestors(h, lists, c), s);
  }

  lemma {:induction false} Smaller(a: set<Cls>, b: set<Cls>, x: Cls)
    requires a <= b && x in b && x !in a
    ensures |a| < |b|
  {
    assert a <= b - {x};
    Subset(a, b - {x});
  }

  lemma {:induction false} Subset(a: set<Cls>, b: set<Cls>)
    requires a <= b
    ensures |a| <= |b|
  {
    if a != {} {
      var x :| x in a;
      Subset(a - {x}, b - {x});
    }
  }

  // ------------------------------------------------------------------
  //  The searches
  // ------------------------------------------------------------------

  const NOT_FOUND: int := 0

  /** `find_class()`: a class right above is at depth `d`; else the deepest answer from above. */
  ghost function Depth(h: Hierarchy, c: Cls, t: Cls, d: int): int
    requires Sound(h, false) && c in h
    decreases |Ancestors(h, false, c)|, |h[c]| + 1
  {
    if Super(h, false, c, t) then d else Deepest(h, c, |h[c]|, t, d + 1)
  }

  /** The greatest answer from the first `k` clauses of `c`. */
  ghost function Deepest(h: Hierarchy, c: Cls, k: nat, t: Cls, d: int): int
    requires Sound(h, false) && c in h && k <= |h[c]|
    decreases |Ancestors(h, false, c)|, k
  {
    if k == 0 then NOT_FOUND
    else
      var child, best := h[c][k - 1], Deepest(h, c, k - 1, t, d);
      if !child.Clause? || child.name.None? then best
      else
        assert Mentions(child, child.name.value, false);
        FewerAncestors(h, false, c, child.name.value);
        var r := Depth(h, child.name.value, t, d);
        if r > best then r else best
  }

  /** Whether a class is another one or derives from it. */
  ghost predicate Derives(h: Hierarchy, c: Cls, t: Cls) {
    c == t || Above(h, true, c, t)
  }

  /** A list is not looked into. */
  method FindClass(h: Hierarchy, c: Cls, t: Cls, depth: int) returns (r: int)
    requires Sound(h, false) && c in h
    ensures r == Depth(h, c, t, depth)
    decreases |Ancestors(h, false, c)|
  {
    var s := h[c];
    var i := 0;
    while i < |s|
      invariant 0 <= i <= |s| && forall k :: 0 <= k < i ==> !Mentions(s[k], t, false)
    {
      if s[i].Clause? && s[i].name.Some? {
        var super := s[i].name.value;
        if super == t {
          assert Mentions(h[c][i], t, false);
          return depth;
        }
      }
      i := i + 1;
    }
    r := NOT_FOUND;
    i := 0;
    while i < |s|
      invariant 0 <= i <= |s| && r == Deepest(h, c, i, t, depth + 1)
    {
      if s[i].Clause? && s[i].name.Some? {
        var super := s[i].name.value;
        assert Mentions(h[c][i], super, false);
        FewerAncestors(h, false, c, super);
        var found := FindClass(h, super, t, depth + 1);
        if found > r {
          r := found;
        }
      }
      i := i + 1;
    }
  }

  /** Names and lists are looked at. */
  method IsDerivedFrom(h: Hierarchy, c: Cls, t: Cls) returns (r: bool)
    requires Sound(h, true) && c in h
    ensures r == Derives(h, c, t)
    decreases |Ancestors(h, true, c)|, 1
  {
    if c == t {
      return true;
    }
    var s := h[c];
    var i := 0;
    while i < |s|
      invariant 0 <= i <= |s|
      invariant forall k, x :: 0 <= k < i && Mentions(s[k], x, true) ==> !Derives(h, x, t)
    {
      if s[i].ClauseList? {
        var found := AnyDerivedFrom(h, c, i, t);
        if found {
          return true;
        }
      } else if s[i].Clause? && s[i].name.Some? {
        var instance := s[i].name.value;
        assert Mentions(h[c][i], instance, true);
        FewerAncestors(h, true, c, instance);
        var found := IsDerivedFrom(h, instance, t);
        if found {
          DerivesUp(h, c, instance, t);
          return true;
        }
      }
      i := i + 1;
    }
    NotAbove(h, c, t);
    r := false;
  }

  lemma {:induction false} DerivesUp(h: Hierarchy, c: Cls, s: Cls, t: Cls)
    requires Super(h, true, c, s) && Derives(h, s, t)
    ensures Derives(h, c, t)
  {
    if s == t {
      StepAbove(h, true, c, s);
    } else {
      StepThenAbove(h, true, c, s, t);
    }
  }

  lemma {:induction false} NotAbove(h: Hierarchy, c: Cls, t: Cls)
    requires c in h && forall k, x :: 0 <= k < |h[c]| && Mentions(h[c][k], x, true) ==> !Derives(h, x, t)
    ensures !Above(h, true, c, t)
  {
    forall p | PathBetween(h, true, p, c, t)
      ensures false
    {
      FirstStep(h, true, p, c, t);
      assert Derives(h, p[1], t);
    }
  }

  /** The names of one list. */
  method AnyDerivedFrom(h: Hierarchy, c: Cls, i: nat, t: Cls) returns (r: bool)
    requires Sound(h, true) && c in h && i < |h[c]| && h[c][i].ClauseList?
    ensures r ==> Derives(h, c, t)
    ensures !r ==> forall x :: Mentions(h[c][i], x, true) ==> !Derives(h, x, t)
    decreases |Ancestors(h, true, c)|, 0
  {
    var names := h[c][i].names;
    var j := 0;
    while j < |names|
      invariant 0 <= j <= |names|
      invariant forall k :: 0 <= k < j && names[k].Some? ==> !Derives(h, names[k].value, t)
    {
      if names[j].Some? {
        var instance := names[j].value;
        assert Mentions(h[c][i], instance, true);
        FewerAncestors(h, true, c, instance);
        var found := IsDerivedFrom(h, instance, t);
        if found {
          DerivesUp(h, c, instance, t);
          return true;
        }
      }
      j := j + 1;
    }
    r := false;
  }

  // ------------------------------------------------------------------
  //  What the depth means
  // ------------------------------------------------------------------

  /** An answer is the length of a path, counted from `d` on. */
  lemma {:induction false} DepthIsAPath(h: Hierarchy, c: Cls, t: Cls, d: int) returns (p: seq<Cls>)
    requires Sound(h, false) && c in h && Depth(h, c, t, d) != NOT_FOUND
    ensures PathBetween(h, false, p, c, t) && Depth(h, c, t, d) == d + |p| - 2 && NoShortCut(h, p, t)
    decreases |Ancestors(h, false, c)|, |h[c]| + 1
  {
    if Super(h, false, c, t) {
      p := [c, t];
    } else {
      var q := DeepestIsAPath(h, c, |h[c]|, t, d + 1);
      StepThenPath(h, false, c, q, t);
      p := [c] + q;
      assert forall i :: 0 < i < |p| ==> p[i] == q[i - 1];
    }
  }

  /** Only the last step of the path names `t`. */
  ghost predicate NoShortCut(h: Hierarchy, p: seq<Cls>, t: Cls) {
    forall i :: 0 <= i < |p| - 2 ==> !Super(h, false, p[i], t)
  }

  /** No path without a short cut is longer than the answer. */
  lemma {:induction false} NoneIsLonger(h: Hierarchy, p: seq<Cls>, c: Cls, t: Cls, d: int)
    requires Sound(h, false) && d >= 1 && PathBetween(h, false, p, c, t) && NoShortCut(h, p, t)
    ensures c in h && Depth(h, c, t, d) >= d + |p| - 2
    decreases |p|
  {
    FirstStep(h, false, p, c, t);
    if |p| > 2 {
      assert !Super(h, false, p[0], t);
      assert forall i :: 0 <= i < |p[1..]| ==> p[1..][i] == p[i + 1];
      NoneIsLonger(h, p[1..], p[1], t, d + 1);
      var i :| 0 <= i < |h[c]| && Mentions(h[c][i], p[1], false);
      DeepestIsDeepest(h, c, |h[c]|, i, t, d + 1);
    }
  }

  /** The answer is the length of the longest inheritance path that takes no short cut, where a class that names `t` itself is a
      short cut. */
  lemma {:induction false} DepthIsLongest(h: Hierarchy, c: Cls, t: Cls, d: int, r: int)
    requires Sound(h, false) && c in h && d >= 1 && r >= d
    ensures Depth(h, c, t, d) == r <==>
      && (exists p :: PathBetween(h, false, p, c, t) && NoShortCut(h, p, t) && r == d + |p| - 2)
      && (forall p :: PathBetween(h, false, p, c, t) && NoShortCut(h, p, t) ==> d + |p| - 2 <= r)
  {
    hide PathBetween, NoShortCut, Depth, Sound;
    forall p | PathBetween(h, false, p, c, t) && NoShortCut(h, p, t) ensures d + |p| - 2 <= Depth(h, c, t, d) {
      NoneIsLonger(h, p, c, t, d);
    }
    if Depth(h, c, t, d) != NOT_FOUND {
      var q := DepthIsAPath(h, c, t, d);
    }
    if p :| PathBetween(h, false, p, c, t) && NoShortCut(h, p, t) && r == d + |p| - 2 {
      NoneIsLonger(h, p, c, t, d);
    }
  }

  lemma {:induction false} DeepestIsAPath(h: Hierarchy, c: Cls, k: nat, t: Cls, d: int) returns (p: seq<Cls>)
    requires Sound(h, false) && c in h && k <= |h[c]| && Deepest(h, c, k, t, d) != NOT_FOUND
    ensures p != [] && Super(h, false, c, p[0])
    ensures PathBetween(h, false, p, p[0], t) && Deepest(h, c, k, t, d) == d + |p| - 2 && NoShortCut(h, p, t)
    decreases |Ancestors(h, false, c)|, k
  {
    var child := h[c][k - 1];
    if Deepest(h, c, k - 1, t, d) == Deepest(h, c, k, t, d) {
      p := DeepestIsAPath(h, c, k - 1, t, d);
    } else {
      assert Mentions(child, child.name.value, false);
      FewerAncestors(h, false, c, child.name.value);
      p := DepthIsAPath(h, child.name.value, t, d);
    }
  }

  /** Every proper ancestor is found, at depth `d` or deeper. */
  lemma {:induction false} AncestorIsFound(h: Hierarchy, p: seq<Cls>, c: Cls, t: Cls, d: int)
    requires Sound(h, false) && d >= 1 && PathBetween(h, false, p, c, t)
    ensures c in h && Depth(h, c, t, d) >= d
    decreases |p|
  {
    FirstStep(h, false, p, c, t);
    if !Super(h, false, c, t) {
      AncestorIsFound(h, p[1..], p[1], t, d + 1);
      var i :| 0 <= i < |h[c]| && Mentions(h[c][i], p[1], false);
      DeepestIsDeepest(h, c, |h[c]|, i, t, d + 1);
    }
  }

  lemma {:induction false} DeepestIsDeepest(h: Hierarchy, c: Cls, k: nat, i: nat, t: Cls, d: int)
    requires Sound(h, false) && c in h && i < k <= |h[c]| && h[c][i].Clause? && h[c][i].name.Some?
    ensures Mentions(h[c][i], h[c][i].name.value, false) && h[c][i].name.value in h
    ensures Deepest(h, c, k, t, d) >= Depth(h, h[c][i].name.value, t, d)
    decreases k
  {
    assert Mentions(h[c][i], h[c][i].name.value, false);
    FewerAncestors(h, false, c, h[c][i].name.value);
    if i < k - 1 {
      DeepestIsDeepest(h, c, k - 1, i, t, d);
    }
  }

  /** From depth 1 on, an answer is found exactly for the proper ancestors. */
  lemma {:induction false} FoundIffAbove(h: Hierarchy, c: Cls, t: Cls, d: int)
    requires Sound(h, false) && c in h && d >= 1
    ensures Depth(h, c, t, d) != NOT_FOUND <==> Above(h, false, c, t)
  {
    if Depth(h, c, t, d) != NOT_FOUND {
      var p := DepthIsAPath(h, c, t, d);
    }
    if p :| PathBetween(h, false, p, c, t) {
      AncestorIsFound(h, p, c, t, d);
    }
  }

  /** At most one class right above each class. */
  ghost predicate SingleInheritance(h: Hierarchy) {
    forall c, s, s' :: Super(h, false, c, s) && Super(h, false, c, s') ==> s == s'
  }

  lemma {:induction false} OnlyPath(h: Hierarchy, p: seq<Cls>, q: seq<Cls>, c: Cls, t: Cls)
    requires Sound(h, false) && SingleInheritance(h)
    requires PathBetween(h, false, p, c, t) && PathBetween(h, false, q, c, t)
    ensures |p| == |q|
  {
    FirstStep(h, false, p, c, t);
    FirstStep(h, false, q, c, t);
    if |p| > 2 && |q| > 2 {
      OnlyPath(h, p[1..], q[1..], p[1], t);
    } else if |p| != |q| {
      assert Above(h, false, t, t);
    }
  }

  /** With single inheritance the answer is the distance: the length of the one path there is. */
  lemma {:induction false} DepthIsDistance(h: Hierarchy, p: seq<Cls>, c: Cls, t: Cls, d: int)
    requires Sound(h, false) && SingleInheritance(h) && d >= 1 && PathBetween(h, false, p, c, t)
    ensures c in h && Depth(h, c, t, d) == d + |p| - 2
  {
    AncestorIsFound(h, p, c, t, d);
    var q := DepthIsAPath(h, c, t, d);
    OnlyPath(h, p, q, c, t);
  }

  lemma {:induction false} PathThenAbove(h: Hierarchy, lists: bool, p: seq<Cls>, c: Cls, s: Cls, t: Cls)
    requires PathBetween(h, lists, p, c, s) && Above(h, lists, s, t)
    ensures Above(h, lists, c, t)
    decreases |p|
  {
    FirstStep(h, lists, p, c, s);
    if |p| > 2 {
      PathThenAbove(h, lists, p[1..], p[1], s, t);
    }
    StepThenAbove(h, lists, c, p[1], t);
  }

  /** What is reached without looking into lists is reached with it. */
  lemma {:induction false} FewerPaths(h: Hierarchy, c: Cls, t: Cls)
    requires Above(h, false, c, t)
    ensures Above(h, true, c, t)
  {
    var p :| PathBetween(h, false, p, c, t);
    forall i | 0 <= i < |p| - 1 ensures Super(h, true, p[i], p[i + 1]) {
      assert Super(h, false, p[i], p[i + 1]);
    }
    assert PathBetween(h, true, p, c, t);
  }

  lemma {:induction false} SoundWithoutLists(h: Hierarchy)
    requires Sound(h, true)
    ensures Sound(h, false)
  {
    forall c | Above(h, false, c, c) ensures false {
      FewerPaths(h, c, c);
    }
    forall c, s | Super(h, false, c, s) ensures s in h {
      assert Super(h, true, c, s);
    }
  }

  /** Every class named in a list can also be reached without lists. */
  ghost predicate ListsAddNothing(h: Hierarchy) {
    forall c, s :: Super(h, true, c, s) ==> Above(h, false, c, s)
  }

  lemma {:induction false} AboveWithoutLists(h: Hierarchy, p: seq<Cls>, c: Cls, t: Cls)
    requires ListsAddNothing(h) && PathBetween(h, true, p, c, t)
    ensures Above(h, false, c, t)
    decreases |p|
  {
    FirstStep(h, true, p, c, t);
    var q :| PathBetween(h, false, q, c, p[1]);
    if |p| > 2 {
      AboveWithoutLists(h, p[1..], p[1], t);
      PathThenAbove(h, false, q, c, p[1], t);
    }
  }

  /** Whether `is_derived_from()` and `find_class()` say the same about two classes. */
  ghost predicate SameAnswer(h: Hierarchy, c: Cls, t: Cls)
    requires Sound(h, false) && c in h
  {
    Derives(h, c, t) <==> c == t || Depth(h, c, t, 1) != NOT_FOUND
  }

  /** The two searches agree on all classes exactly when the lists name no class that single clauses
      do not lead to. */
  lemma {:induction false} SearchesAgree(h: Hierarchy)
    requires Sound(h, true)
    ensures Sound(h, false)
    ensures (forall c, t :: c in h ==> SameAnswer(h, c, t)) <==> ListsAddNothing(h)
  {
    SoundWithoutLists(h);
    if forall c, t :: c in h ==> SameAnswer(h, c, t) {
      forall c, s | Super(h, true, c, s) ensures Above(h, false, c, s) {
        StepAbove(h, true, c, s);
        assert SameAnswer(h, c, s);
        FoundIffAbove(h, c, s, 1);
      }
    }
    if ListsAddNothing(h) {
      forall c, t | c in h ensures SameAnswer(h, c, t) {
        FoundIffAbove(h, c, t, 1);
        if p :| PathBetween(h, true, p, c, t) {
          AboveWithoutLists(h, p, c, t);
        }
        if Above(h, false, c, t) {
          FewerPaths(h, c, t);
        }
      }
    }
  }

  /** With a list they do not: the class derives from the interface, whose depth is not found. */
  lemma {:induction false} ListIsNotFound(h: Hierarchy)
    requires h == map[0 := [ClauseList([Some(1)])], 1 := []]
    ensures Derives(h, 0, 1) && !ListsAddNothing(h)
    ensures Sound(h, false) && Depth(h, 0, 1, 1) == NOT_FOUND
  {
    assert Mentions(h[0][0], 1, true);
    assert Super(h, true, 0, 1);
    StepAbove(h, true, 0, 1);
    assert forall c, s :: !Super(h, false, c, s);
    forall p, c, t | PathBetween(h, false, p, c, t) ensures false {
      FirstStep(h, false, p, c, t);
    }
    assert !Above(h, false, 0, 1);
    assert Deepest(h, 0, 0, 1, 2) == NOT_FOUND;
  }
}
