/** What preparing attributes guarantees: no rivals on any run, one answer whatever the order, and
    the rules of inheritance. */
module AttributeLaws {
  import opened NodeTree
  import opened ForestLaws
  import opened Attributes
  import opened PrepareAttributes
  import A = AttributeKinds

  // ------------------------------------------------------------------
  //  Rivals never meet
  // ------------------------------------------------------------------

  lemma {:induction false} FromListIsConsistent(src: Source, s: AttributeSet, l: Node, i: nat)
    requires SoundSource(src) && l in src.f.parent && i <= |src.f.children[l]| && A.Consistent(s)
    ensures A.Consistent(FromList(src, s, l, i))
  {
    hide A.Put, A.Consistent, Literal, A.Rivals;
    if i > 0 {
      FromListIsConsistent(src, s, l, i - 1);
      var x := src.f.children[l][i - 1];
      assert x in src.f.children[l];
      var a := Literal(src.f.kind[x], src.names[x]);
      if a.Some? {
        A.PutIsConsistent(FromList(src, s, l, i - 1), a.value, true);
      }
    }
  }

  lemma {:induction false} CopyIsConsistent(s: AttributeSet, p: AttributeSet, a: A.Attribute)
    requires A.Consistent(s)
    ensures A.Consistent(Copy(s, p, a))
  {
    A.PutIsConsistent(s, a, a in p);
  }

  lemma {:induction false} Copy3IsConsistent(s: AttributeSet, p: AttributeSet, a: A.Attribute, b: A.Attribute, c: A.Attribute)
    requires A.Consistent(s)
    ensures A.Consistent(Copy(Copy(Copy(s, p, a), p, b), p, c))
  {
    hide A.Consistent, Copy;
    CopyIsConsistent(s, p, a);
    CopyIsConsistent(Copy(s, p, a), p, b);
    CopyIsConsistent(Copy(Copy(s, p, a), p, b), p, c);
  }

  lemma {:induction false} InheritIsConsistent(s: AttributeSet, p: AttributeSet, isClass: bool)
    requires A.Consistent(s)
    ensures A.Consistent(Inherit(s, p, isClass))
  {
    hide A.Consistent, A.Put, Copy;
    Copy3IsConsistent(s, p, A.Public, A.Private, A.Protected);
    var s1 := CopyVisibility(s, p);
    Copy3IsConsistent(s1, p, A.Static, A.Abstract, A.Virtual);
    var s2 := CopyMembership(s1, p);
    CopyIsConsistent(s2, p, A.Native);
    CopyIsConsistent(Copy(s2, p, A.Native), p, A.Enumerable);
    var s3 := Copy(Copy(s2, p, A.Native), p, A.Enumerable);
    A.PutIsConsistent(s3, A.True, false);
    A.PutIsConsistent(A.Put(s3, A.True, false), A.False, true);
    var s4 := CopyFalse(s3, p);
    CopyIsConsistent(s4, p, A.Dynamic);
    CopyIsConsistent(Copy(s4, p, A.Dynamic), p, A.Final);
  }

  lemma {:induction false} FewerIsConsistent(s: AttributeSet, t: AttributeSet)
    requires A.Consistent(s) && t <= s
    ensures A.Consistent(t)
  {
    hide A.Rivals;
    forall a | a in t ensures A.Rivals(a) !! t {
      assert A.Rivals(a) !! s;
    }
  }

  lemma {:induction false} MarkedIsConsistent(m: AttributeMap, n: Node)
    requires n in m.Keys && AllConsistent(m)
    ensures AllConsistent(Marked(m, n))
  {
    A.PutIsConsistent(m[n], A.Defined, true);
    assert A.Rivals(A.Defined) == {};
    hide A.Consistent, A.Rivals;
  }

  lemma {:induction false} OneIsConsistent(m: AttributeMap, n: Node, s: AttributeSet)
    requires n in m.Keys && AllConsistent(m) && A.Consistent(s)
    ensures AllConsistent(m[n := s])
  {
    hide A.Consistent;
  }

  lemma {:induction false} Setting(src: Source, n: Node)
    requires SoundSource(src) && n in src.f.parent
    ensures Closed(src.f) && src.f.parent.Keys == src.f.kind.Keys == src.f.children.Keys == src.lists.Keys == src.names.Keys
    ensures Inherits(src.f, n) ==> src.f.parent[n] != null && src.f.parent[n] in src.f.parent
  {
  }

  lemma {:induction false} PrepareIsConsistent(src: Source, m: AttributeMap, n: Node, k: nat)
    requires SoundSource(src) && n in src.f.parent && m.Keys == src.f.parent.Keys && AllConsistent(m)
    ensures AllConsistent(Prepare(src, m, n, k))
    decreases k, 1
  {
    hide A.Consistent, AllConsistent, AfterOwn;
    MarkedIsConsistent(m, n);
    var marked := Marked(m, n);
    if A.Defined !in m[n] && src.f.kind[n] != Program {
      OwnIsConsistent(src, marked, n);
      AfterOwnIsConsistent(src, WithOwn(src, marked, n), n, k);
    }
  }

  lemma {:induction false} OwnIsConsistent(src: Source, m: AttributeMap, n: Node)
    requires SoundSource(src) && n in src.f.parent && m.Keys == src.f.parent.Keys && AllConsistent(m)
    ensures AllConsistent(WithOwn(src, m, n))
  {
    hide A.Consistent, FromList;
    var l := src.lists[n];
    if l != null {
      FromListIsConsistent(src, m[n], l, |src.f.children[l]|);
    }
    OneIsConsistent(m, n, Own(src, m[n], n));
  }

  lemma {:induction false} FinishedIsConsistent(src: Source, m: AttributeMap, n: Node)
    requires SoundSource(src) && n in src.f.parent && m.Keys == src.f.parent.Keys && AllConsistent(m)
    ensures AllConsistent(Finished(src, m, n))
  {
    hide A.Consistent;
    FewerIsConsistent(m[n], Finish(src.f, n, m[n]));
    OneIsConsistent(m, n, Finish(src.f, n, m[n]));
  }

  lemma {:induction false} AfterOwnIsConsistent(src: Source, m: AttributeMap, n: Node, k: nat)
    requires SoundSource(src) && n in src.f.parent && m.Keys == src.f.parent.Keys && AllConsistent(m)
    ensures AllConsistent(AfterOwn(src, m, n, k))
    decreases k, 0
  {
    hide A.Consistent, AllConsistent, Prepare, Finished, Inherit, WithParent, SoundSource, Closed, Inherits;
    Setting(src, n);
    FinishedIsConsistent(src, m, n);
    if Inherits(src.f, n) && k > 0 {
      var p := src.f.parent[n];
      PrepareIsConsistent(src, m, p, k - 1);
      var up := Prepare(src, m, p, k - 1);
      ParentIsConsistent(src, up, n, p);
      FinishedIsConsistent(src, WithParent(src, up, n, p), n);
    }
  }

  lemma {:induction false} ParentIsConsistent(src: Source, m: AttributeMap, n: Node, p: Node)
    requires n in m.Keys && p in m.Keys && p in src.f.kind && AllConsistent(m)
    ensures AllConsistent(WithParent(src, m, n, p))
  {
    hide A.Consistent, Inherit;
    InheritIsConsistent(m[n], m[p], src.f.kind[p] == Class);
    OneIsConsistent(m, n, Inherit(m[n], m[p], src.f.kind[p] == Class));
  }

  /** One call of a run. */
  datatype Call = SetOne(n: Node, a: A.Attribute, v: bool) | SetAll(n: Node, a: A.Attribute, v: bool) | PrepareOne(n: Node)

  ghost function Apply(src: Source, typed: NodeType -> bool, m: AttributeMap, c: Call, k: nat): (r: AttributeMap)
    requires SoundSource(src) && m.Keys == src.f.parent.Keys && c.n in src.f.parent
    ensures r.Keys == m.Keys
  {
    match c
    case SetOne(n, a, v) => if Accepts(typed, src.f.kind[n], a) then m[n := A.Put(m[n], a, v)] else m
    case SetAll(n, a, v) => SetTree(src.f, typed, m, n, a, v, k).m
    case PrepareOne(n) => Prepare(src, m, n, k)
  }

  ghost function Run(src: Source, typed: NodeType -> bool, m: AttributeMap, calls: seq<Call>, k: nat): (r: AttributeMap)
    requires SoundSource(src) && m.Keys == src.f.parent.Keys && forall i :: 0 <= i < |calls| ==> calls[i].n in src.f.parent
    ensures r.Keys == m.Keys
  {
    if calls == [] then m else Run(src, typed, Apply(src, typed, m, calls[0], k), calls[1..], k)
  }

  /** On a tree without rivals, for instance a tree without attributes, no sequence of calls ever
      leaves two rivals on one node. */
  lemma {:induction false} RunIsConsistent(src: Source, typed: NodeType -> bool, m: AttributeMap, calls: seq<Call>, k: nat)
    requires SoundSource(src) && m.Keys == src.f.parent.Keys && forall i :: 0 <= i < |calls| ==> calls[i].n in src.f.parent
    requires AllConsistent(m)
    ensures AllConsistent(Run(src, typed, m, calls, k))
    decreases |calls|
  {
    hide AllConsistent, Prepare, SetTree, SoundSource;
    if calls != [] {
      ApplyIsConsistent(src, typed, m, calls[0], k);
      RunIsConsistent(src, typed, Apply(src, typed, m, calls[0], k), calls[1..], k);
    }
  }

  lemma {:induction false} ApplyIsConsistent(src: Source, typed: NodeType -> bool, m: AttributeMap, c: Call, k: nat)
    requires SoundSource(src) && m.Keys == src.f.parent.Keys && c.n in src.f.parent && AllConsistent(m)
    ensures AllConsistent(Apply(src, typed, m, c, k))
  {
    hide A.Consistent, A.Put, Prepare, SetTree;
    match c
    case SetOne(n, a, v) =>
      A.PutIsConsistent(m[n], a, v);
      OneIsConsistent(m, n, A.Put(m[n], a, v));
    case SetAll(n, a, v) => SetTreeIsConsistent(src.f, typed, m, n, a, v, k);
    case PrepareOne(n) => PrepareIsConsistent(src, m, n, k);
  }

  // ------------------------------------------------------------------
  //  A fresh tree
  // ------------------------------------------------------------------

  /** What the list of a node says; a program has none. */
  ghost function OwnOf(src: Source, n: Node): AttributeSet
    requires SoundSource(src) && n in src.f.parent
  {
    if src.f.kind[n] == Program then {A.Defined} else Own(src, {A.Defined}, n)
  }

  /** The attributes of a prepared node. */
  ghost function Final(src: Source, n: Node, k: nat): AttributeSet
    requires SoundSource(src) && n in src.f.parent
    decreases k
  {
    if !Inherits(src.f, n) || k == 0 then Finish(src.f, n, OwnOf(src, n))
    else
      var p := src.f.parent[n];
      Finish(src.f, n, Inherit(OwnOf(src, n), Final(src, p, k - 1), src.f.kind[p] == Class))
  }

  lemma {:induction false} FinalFuel(src: Source, n: Node, j: nat, k: nat)
    requires SoundSource(src) && n in src.f.parent && Grounded(src.f.parent, n, j) && Grounded(src.f.parent, n, k)
    ensures Final(src, n, j) == Final(src, n, k)
    decreases j
  {
    hide OwnOf, Inherit, Finish;
    if Inherits(src.f, n) {
      FinalFuel(src, src.f.parent[n], j - 1, k - 1);
    }
  }

  /** Untouched, or prepared. */
  ghost predicate FreshOrFinal(src: Source, m: AttributeMap, x: Node, k: nat)
    requires SoundSource(src) && x in src.f.parent && m.Keys == src.f.parent.Keys
  {
    m[x] == {} || m[x] == Final(src, x, k)
  }

  /** All nodes at or above `n` are untouched or prepared. */
  ghost predicate ChainGood(src: Source, m: AttributeMap, n: Node?, k: nat)
    requires SoundSource(src) && m.Keys == src.f.parent.Keys
  {
    forall j: nat {:trigger Up(src.f.parent, n, j)} ::
      var x := Up(src.f.parent, n, j); x != null && x in src.f.parent ==> FreshOrFinal(src, m, x, k)
  }

  /** `r` is `m` with `n` prepared, and some nodes above it. */
  ghost predicate OnlyPrepared(src: Source, m: AttributeMap, r: AttributeMap, n: Node, k: nat)
    requires SoundSource(src) && n in src.f.parent && m.Keys == r.Keys == src.f.parent.Keys
  {
    && r[n] == Final(src, n, k)
    && forall x {:trigger r[x]} :: x in r.Keys ==>
         r[x] == m[x] || (m[x] == {} && r[x] == Final(src, x, k) && exists j: nat :: Up(src.f.parent, n, j) == x)
  }

  lemma {:induction false} FinalIsDefined(src: Source, n: Node, k: nat)
    requires SoundSource(src) && n in src.f.parent
    ensures A.Defined in Final(src, n, k)
    decreases k
  {
    hide OwnOf, Inherit, HasList, SoundSource, Closed, Inherits;
    Setting(src, n);
    OwnIsDefined(src, n);
    if Inherits(src.f, n) && k > 0 {
      var p := src.f.parent[n];
      InheritKeeps(OwnOf(src, n), Final(src, p, k - 1), src.f.kind[p] == Class, A.Defined);
    }
  }

  lemma {:induction false} OwnIsDefined(src: Source, n: Node)
    requires SoundSource(src) && n in src.f.parent
    ensures A.Defined in OwnOf(src, n)
  {
    var l := src.lists[n];
    if l != null && src.f.kind[n] != Program {
      FromListKeeps(src, {A.Defined}, l, |src.f.children[l]|, A.Defined);
    }
  }

  lemma {:induction false} FromListKeeps(src: Source, s: AttributeSet, l: Node, i: nat, a: A.Attribute)
    requires SoundSource(src) && l in src.f.parent && i <= |src.f.children[l]| && a in s
    ensures a in FromList(src, s, l, i)
  {
    hide A.Rivals, Literal;
    if i > 0 {
      FromListKeeps(src, s, l, i - 1, a);
    }
  }

  /** Attributes no step of the inheritance is about. */
  predicate IsKept(a: A.Attribute) {
    a == A.Defined || a == A.Array || a == A.Constructor || a == A.Inline || a == A.Deprecated || a == A.Unsafe || a == A.Unused
  }

  lemma {:induction false} InheritKeeps(s: AttributeSet, p: AttributeSet, isClass: bool, a: A.Attribute)
    requires IsKept(a)
    ensures a in Inherit(s, p, isClass) <==> a in s
  {
    hide A.Rivals;
  }

  lemma {:induction false} ChainStep(src: Source, n: Node, k: nat, i: nat)
    requires SoundSource(src) && n in src.f.parent && Grounded(src.f.parent, n, k) && src.f.parent[n] != null
    ensures Up(src.f.parent, src.f.parent[n], i) == Up(src.f.parent, n, i + 1)
    ensures Up(src.f.parent, n, i + 1) != n
  {
    assert src.f.parent[n] in src.f.parent;
    GroundedNoReturn(src.f.parent, n, k, i + 1);
  }

  /** Above `n`, nothing changed. */
  lemma {:induction false} ChainGoodAbove(src: Source, m: AttributeMap, n: Node, s: AttributeSet, k: nat)
    requires SoundSource(src) && n in src.f.parent && m.Keys == src.f.parent.Keys
    requires Grounded(src.f.parent, n, k) && src.f.parent[n] != null && ChainGood(src, m, n, k)
    ensures ChainGood(src, m[n := s], src.f.parent[n], k)
  {
    hide FreshOrFinal;
    var p := src.f.parent[n];
    forall j: nat | var x := Up(src.f.parent, p, j); x != null && x in src.f.parent
      ensures FreshOrFinal(src, m[n := s], Up(src.f.parent, p, j), k)
    {
      ChainStep(src, n, k, j);
      var x := Up(src.f.parent, n, j + 1);
      assert FreshOrFinal(src, m, x, k);
      SameFresh(src, m, m[n := s], x, k);
    }
  }

  lemma {:induction false} SameFresh(src: Source, m: AttributeMap, m': AttributeMap, x: Node, k: nat)
    requires SoundSource(src) && x in src.f.parent && m.Keys == m'.Keys == src.f.parent.Keys
    requires m[x] == m'[x] && FreshOrFinal(src, m, x, k)
    ensures FreshOrFinal(src, m', x, k)
  {
  }

  lemma {:induction false} FinalStep(src: Source, n: Node, k: nat)
    requires SoundSource(src) && n in src.f.parent && Grounded(src.f.parent, n, k)
    ensures !Inherits(src.f, n) ==> Final(src, n, k) == Finish(src.f, n, OwnOf(src, n))
    ensures Inherits(src.f, n) ==>
      var p := src.f.parent[n];
      && p in src.f.parent && p in src.f.kind && (Grounded(src.f.parent, p, k) ==>
        Final(src, n, k) == Finish(src.f, n, Inherit(OwnOf(src, n), Final(src, p, k), src.f.kind[p] == Class)))
  {
    hide OwnOf, Finish, Inherit;
    if Inherits(src.f, n) {
      var p := src.f.parent[n];
      if Grounded(src.f.parent, p, k) {
        FinalFuel(src, p, k - 1, k);
      }
    }
  }

  /** Preparing a node of a tree whose nodes are untouched or prepared gives it its own answer, and
      changes nothing but nodes above it that were untouched. So the answer does not depend on the
      order in which nodes are prepared. */
  lemma {:induction false} PrepareGivesFinal(src: Source, m: AttributeMap, n: Node, j: nat, k: nat)
    requires SoundSource(src) && n in src.f.parent && m.Keys == src.f.parent.Keys
    requires AllGrounded(src.f.parent, k) && Grounded(src.f.parent, n, j) && ChainGood(src, m, n, k)
    ensures OnlyPrepared(src, m, Prepare(src, m, n, j), n, k)
    decreases j
  {
    hide Finish, Inherit, Own, Final, FreshOrFinal, ChainGood;
    ThisOne(src, m, n, k);
    FinalStep(src, n, k);
    FinalIsDefined(src, n, k);
    if A.Defined !in m[n] {
      assert m[n] + {A.Defined} == {A.Defined};
      if src.f.kind[n] == Program || !Inherits(src.f, n) {
        NotInherited(src, m, n, j, k);
      } else {
        InheritedToo(src, m, n, j, k);
      }
    }
  }

  lemma {:induction false} ThisOne(src: Source, m: AttributeMap, n: Node, k: nat)
    requires SoundSource(src) && n in src.f.parent && m.Keys == src.f.parent.Keys && ChainGood(src, m, n, k)
    ensures m[n] == {} || m[n] == Final(src, n, k)
    ensures Up(src.f.parent, n, 0) == n
  {
    assert Up(src.f.parent, n, 0) == n;
  }

  /** Preparing an untouched node, in one equation. */
  lemma {:induction false} PrepareFresh(src: Source, m: AttributeMap, n: Node, j: nat)
    requires SoundSource(src) && n in src.f.parent && m.Keys == src.f.parent.Keys && m[n] == {}
    ensures !Inherits(src.f, n) ==> Prepare(src, m, n, j) == m[n := Finish(src.f, n, OwnOf(src, n))]
    ensures Inherits(src.f, n) && j > 0 ==>
      var p := src.f.parent[n];
      && p in src.f.parent && p in src.f.kind
      && Prepare(src, m, n, j) == Finished(src, WithParent(src, Prepare(src, m[n := OwnOf(src, n)], p, j - 1), n, p), n)
  {
    hide SoundSource, Closed, Inherits, WithParent, Finish, OwnOf;
    Setting(src, n);
    OwnPart(src, m, n, j);
  }

  lemma {:induction false} OwnPart(src: Source, m: AttributeMap, n: Node, j: nat)
    requires SoundSource(src) && n in src.f.parent && m.Keys == src.f.parent.Keys && m[n] == {}
    ensures src.f.kind[n] == Program ==> !Inherits(src.f, n)
    ensures Prepare(src, m, n, j)
      == if src.f.kind[n] == Program then m[n := Finish(src.f, n, OwnOf(src, n))]
         else AfterOwn(src, m[n := OwnOf(src, n)], n, j)
  {
    hide HasList, SoundSource, Closed, AfterOwn, WithOwn, Marked, OwnOf;
    Setting(src, n);
    OwnMap(src, m, n);
  }

  lemma {:induction false} OwnMap(src: Source, m: AttributeMap, n: Node)
    requires SoundSource(src) && n in src.f.parent && m.Keys == src.f.parent.Keys && m[n] == {}
    ensures n in src.f.kind
    ensures src.f.kind[n] == Program ==> Marked(m, n) == m[n := OwnOf(src, n)]
    ensures src.f.kind[n] != Program ==> WithOwn(src, Marked(m, n), n) == m[n := OwnOf(src, n)]
  {
    hide Own, SoundSource, Closed;
    Setting(src, n);
    assert m[n] + {A.Defined} == {A.Defined};
    if src.f.kind[n] != Program {
      assert m[n := {A.Defined}][n := OwnOf(src, n)] == m[n := OwnOf(src, n)];
    }
  }

  lemma {:induction false} NotInherited(src: Source, m: AttributeMap, n: Node, j: nat, k: nat)
    requires SoundSource(src) && n in src.f.parent && m.Keys == src.f.parent.Keys && Grounded(src.f.parent, n, k)
    requires m[n] == {} && !Inherits(src.f, n)
    ensures OnlyPrepared(src, m, Prepare(src, m, n, j), n, k)
  {
    hide OwnOf, Final, SoundSource, Closed, Inherits, Prepare, Finish;
    Setting(src, n);
    FinalStep(src, n, k);
    PrepareFresh(src, m, n, j);
    assert Up(src.f.parent, n, 0) == n;
  }

  lemma {:induction false} InheritedToo(src: Source, m: AttributeMap, n: Node, j: nat, k: nat)
    requires SoundSource(src) && n in src.f.parent && m.Keys == src.f.parent.Keys
    requires AllGrounded(src.f.parent, k) && Grounded(src.f.parent, n, j) && ChainGood(src, m, n, k)
    requires m[n] == {} && Inherits(src.f, n)
    ensures OnlyPrepared(src, m, Prepare(src, m, n, j), n, k)
    decreases j, 0
  {
    hide OwnOf, Final, FreshOrFinal, ChainGood, OnlyPrepared, Finished, WithParent, Prepare, Inherits, SoundSource;
    Setting(src, n);
    FinalStep(src, n, k);
    OwnIsDefined(src, n);
    PrepareFresh(src, m, n, j);
    var p, own := src.f.parent[n], m[n := OwnOf(src, n)];
    ChainGoodAbove(src, m, n, own[n], k);
    PrepareGivesFinal(src, own, p, j - 1, k);
    var up := Prepare(src, own, p, j - 1);
    OneMorePrepared(src, m, own, up, n, k);
  }

  lemma {:induction false} OneMorePrepared(src: Source, m: AttributeMap, own: AttributeMap, up: AttributeMap, n: Node, k: nat)
    requires SoundSource(src) && n in src.f.parent && m.Keys == own.Keys == up.Keys == src.f.parent.Keys
    requires Inherits(src.f, n) && AllGrounded(src.f.parent, k) && m[n] == {} && own == m[n := OwnOf(src, n)]
    requires src.f.parent[n] in src.f.parent && OnlyPrepared(src, own, up, src.f.parent[n], k)
    ensures OnlyPrepared(src, m, Finished(src, WithParent(src, up, n, src.f.parent[n]), n), n, k)
  {
    hide Finish, Inherit, OwnOf, Final, SoundSource;
    FinalStep(src, n, k);
    OwnIsDefined(src, n);
    var p := src.f.parent[n];
    var r := Finished(src, WithParent(src, up, n, p), n);
    assert up[n] == own[n];
    assert Up(src.f.parent, n, 0) == n;
    forall x {:trigger r[x]} | x in r.Keys && r[x] != m[x] && x != n
      ensures m[x] == {} && r[x] == Final(src, x, k) && exists j: nat :: Up(src.f.parent, n, j) == x
    {
      assert r[x] == up[x] && own[x] == m[x];
      var i: nat :| Up(src.f.parent, p, i) == x;
      ChainStep(src, n, k, i);
    }
  }

  // ------------------------------------------------------------------
  //  The rules of inheritance
  // ------------------------------------------------------------------

  /** The attributes of `w` that are in `s`. */
  function Of(w: AttributeSet, s: AttributeSet): AttributeSet {
    s * w
  }

  lemma {:induction false} PutOther(w: AttributeSet, s: AttributeSet, a: A.Attribute, v: bool)
    requires a !in w
    ensures Of(w, A.Put(s, a, v)) == Of(w, s)
  {
    hide A.Rivals;
  }

  /** Only the first step is about visibility. */
  lemma {:induction false} VisibilityOf(s: AttributeSet, p: AttributeSet, isClass: bool)
    ensures Of(VISIBILITY, Inherit(s, p, isClass)) == Of(VISIBILITY, CopyVisibility(s, p))
  {
    hide A.Put, Of;
    var w, s1 := VISIBILITY, CopyVisibility(s, p);
    PutOther(w, s1, A.Static, A.Static in p);
    PutOther(w, Copy(s1, p, A.Static), A.Abstract, A.Abstract in p);
    PutOther(w, Copy(Copy(s1, p, A.Static), p, A.Abstract), A.Virtual, A.Virtual in p);
    var s2 := CopyMembership(s1, p);
    PutOther(w, s2, A.Native, A.Native in p);
    PutOther(w, Copy(s2, p, A.Native), A.Enumerable, A.Enumerable in p);
    var s3 := Copy(Copy(s2, p, A.Native), p, A.Enumerable);
    PutOther(w, s3, A.True, false);
    PutOther(w, A.Put(s3, A.True, false), A.False, true);
    var s4 := CopyFalse(s3, p);
    PutOther(w, s4, A.Dynamic, A.Dynamic in p);
    PutOther(w, Copy(s4, p, A.Dynamic), A.Final, A.Final in p);
  }

  /** A node without visibility takes the one its parent has. */
  lemma {:induction false} CopiedVisibility(s: AttributeSet, p: AttributeSet)
    requires A.Consistent(p)
    ensures Of(VISIBILITY, CopyVisibility(s, p)) == if Of(VISIBILITY, s) != {} then Of(VISIBILITY, s) else Of(VISIBILITY, p)
  {
    if VISIBILITY !! s {
      CopiedOne(s, p);
      assert Of(VISIBILITY, CopyVisibility(s, p)) == Of(VISIBILITY, p);
      assert Of(VISIBILITY, s) == {};
    } else {
      var a :| a in VISIBILITY && a in s;
      assert a in Of(VISIBILITY, s);
    }
  }

  lemma {:induction false} CopiedOne(s: AttributeSet, p: AttributeSet)
    requires VISIBILITY !! s && A.Consistent(p)
    ensures var r := CopyVisibility(s, p);
      && (A.Public in r <==> A.Public in p) && (A.Private in r <==> A.Private in p) && (A.Protected in r <==> A.Protected in p)
  {
    assert A.Public in p ==> A.Rivals(A.Public) !! p;
    assert A.Private in p ==> A.Rivals(A.Private) !! p;
    assert A.Protected in p ==> A.Rivals(A.Protected) !! p;
  }

  lemma {:induction false} FinalIsConsistent(src: Source, n: Node, k: nat)
    requires SoundSource(src) && n in src.f.parent
    ensures A.Consistent(Final(src, n, k)) && A.Consistent(OwnOf(src, n))
    decreases k
  {
    hide A.Consistent, Inherit, HasList, FromList;
    ConsistentOwn(src, n);
    var s := OwnOf(src, n);
    if Inherits(src.f, n) && k > 0 {
      var p := src.f.parent[n];
      InheritIsConsistent(s, Final(src, p, k - 1), src.f.kind[p] == Class);
      s := Inherit(s, Final(src, p, k - 1), src.f.kind[p] == Class);
    }
    FewerIsConsistent(s, Finish(src.f, n, s));
  }

  lemma {:induction false} ConsistentOwn(src: Source, n: Node)
    requires SoundSource(src) && n in src.f.parent
    ensures A.Consistent(OwnOf(src, n))
  {
    hide FromList;
    assert A.Consistent({A.Defined});
    var l := src.lists[n];
    if l != null {
      FromListIsConsistent(src, {A.Defined}, l, |src.f.children[l]|);
    }
  }

  /** `n` inherits from the node `j` steps above, through nodes whose lists say nothing of `w`. */
  ghost predicate InheritsFrom(src: Source, w: AttributeSet, n: Node, j: nat)
    requires SoundSource(src) && n in src.f.parent
    decreases j
  {
    j == 0 || (Of(w, OwnOf(src, n)) == {} && Inherits(src.f, n) && InheritsFrom(src, w, src.f.parent[n], j - 1))
  }

  lemma {:induction false} FinishOther(f: Forest, n: Node, w: AttributeSet, s: AttributeSet)
    requires Closed(f) && n in f.parent && A.Native !in w
    ensures Of(w, Finish(f, n, s)) == Of(w, s)
  {
    hide HasList;
  }

  /** One step of the visibility rule. */
  lemma {:induction false} VisibilityStep(src: Source, n: Node, k: nat)
    requires SoundSource(src) && n in src.f.parent && Grounded(src.f.parent, n, k)
    ensures var own := Of(VISIBILITY, OwnOf(src, n));
      Of(VISIBILITY, Final(src, n, k)) ==
      if own != {} || !Inherits(src.f, n) then own else Of(VISIBILITY, Final(src, src.f.parent[n], k - 1))
  {
    hide OwnOf, Inherit, CopyVisibility, Finish, Of, A.Consistent;
    if Inherits(src.f, n) {
      var p := src.f.parent[n];
      var s, q, c := OwnOf(src, n), Final(src, p, k - 1), src.f.kind[p] == Class;
      FinalIsConsistent(src, p, k - 1);
      VisibilityOf(s, q, c);
      CopiedVisibility(s, q);
      FinishOther(src.f, n, VISIBILITY, Inherit(s, q, c));
    } else {
      FinishOther(src.f, n, VISIBILITY, OwnOf(src, n));
    }
  }

  /** The visibility of a prepared node is the one that the nearest node at or above it says,
      below the package or the program; without any, the node has none. */
  lemma {:induction false} NearestVisibility(src: Source, n: Node, k: nat, j: nat)
    requires SoundSource(src) && n in src.f.parent && Grounded(src.f.parent, n, k) && InheritsFrom(src, VISIBILITY, n, j)
    ensures var x := Up(src.f.parent, n, j);
      && x != null && x in src.f.parent
      && (Of(VISIBILITY, OwnOf(src, x)) != {} || !Inherits(src.f, x) ==>
            Of(VISIBILITY, Final(src, n, k)) == Of(VISIBILITY, OwnOf(src, x)))
    decreases j
  {
    hide OwnOf, Final, Of;
    VisibilityStep(src, n, k);
    if j > 0 {
      NearestVisibility(src, src.f.parent[n], k - 1, j - 1);
    }
  }

  /** The node `j` steps above decides the visibility of `n`: all nodes below it on the way say none,
      and it says one or inherits none. */
  ghost predicate DecidesVisibility(src: Source, n: Node, j: nat)
    requires SoundSource(src) && n in src.f.parent
  {
    InheritsFrom(src, VISIBILITY, n, j)
    && var x := Up(src.f.parent, n, j);
       x != null && x in src.f.parent && (Of(VISIBILITY, OwnOf(src, x)) != {} || !Inherits(src.f, x))
  }

  lemma {:induction false} SomeNodeDecides(src: Source, n: Node, k: nat) returns (j: nat)
    requires SoundSource(src) && n in src.f.parent && Grounded(src.f.parent, n, k)
    ensures DecidesVisibility(src, n, j)
    decreases k
  {
    hide OwnOf, Of;
    if Of(VISIBILITY, OwnOf(src, n)) != {} || !Inherits(src.f, n) {
      j := 0;
    } else {
      j := SomeNodeDecides(src, src.f.parent[n], k - 1);
      j := j + 1;
    }
  }

  /** There always is such a node, and its own list gives `n` its visibility. */
  lemma {:induction false} VisibilityIsDecided(src: Source, n: Node, k: nat)
    requires SoundSource(src) && n in src.f.parent && Grounded(src.f.parent, n, k)
    ensures exists j: nat :: (
      DecidesVisibility(src, n, j)
      && Of(VISIBILITY, Final(src, n, k)) == Of(VISIBILITY, OwnOf(src, Up(src.f.parent, n, j))))
  {
    hide OwnOf, Final, Of, InheritsFrom;
    var j := SomeNodeDecides(src, n, k);
    NearestVisibility(src, n, k, j);
  }

  lemma {:induction false} FalseInherited(s: AttributeSet, p: AttributeSet, isClass: bool)
    ensures A.False in Inherit(s, p, isClass) <==> A.False in s || A.False in p
  {
    hide CopyVisibility, CopyMembership;
    FalseFirst(s, p);
    var s2 := CopyMembership(CopyVisibility(s, p), p);
    assert A.Rivals(A.False) == {A.True};
    hide A.Rivals;
  }

  lemma {:induction false} FalseFirst(s: AttributeSet, p: AttributeSet)
    ensures A.False in CopyMembership(CopyVisibility(s, p), p) <==> A.False in s
  {
    hide A.Rivals;
  }

  /** The node `j` steps above, from which `n` inherits, says FALSE. */
  ghost predicate SaysFalse(src: Source, n: Node, j: nat)
    requires SoundSource(src) && n in src.f.parent
    decreases j
  {
    if j == 0 then A.False in OwnOf(src, n) else Inherits(src.f, n) && SaysFalse(src, src.f.parent[n], j - 1)
  }

  lemma {:induction false} FalseStep(src: Source, n: Node, k: nat)
    requires SoundSource(src) && n in src.f.parent && Grounded(src.f.parent, n, k)
    ensures A.False in Final(src, n, k)
      <==> A.False in OwnOf(src, n) || (Inherits(src.f, n) && A.False in Final(src, src.f.parent[n], k - 1))
  {
    hide OwnOf, Inherit, HasList;
    if Inherits(src.f, n) {
      var p := src.f.parent[n];
      FalseInherited(OwnOf(src, n), Final(src, p, k - 1), src.f.kind[p] == Class);
    }
  }

  lemma {:induction false} SaidSomewhere(src: Source, n: Node, k: nat) returns (j: nat)
    requires SoundSource(src) && n in src.f.parent && Grounded(src.f.parent, n, k) && A.False in Final(src, n, k)
    ensures SaysFalse(src, n, j)
    decreases k
  {
    hide OwnOf, Final;
    FalseStep(src, n, k);
    if A.False in OwnOf(src, n) {
      j := 0;
    } else {
      j := SaidSomewhere(src, src.f.parent[n], k - 1);
      j := j + 1;
    }
  }

  lemma {:induction false} HeardBelow(src: Source, n: Node, k: nat, j: nat)
    requires SoundSource(src) && n in src.f.parent && Grounded(src.f.parent, n, k) && SaysFalse(src, n, j)
    ensures A.False in Final(src, n, k)
    decreases j
  {
    hide OwnOf, Final;
    FalseStep(src, n, k);
    if j > 0 {
      HeardBelow(src, src.f.parent[n], k - 1, j - 1);
    }
  }

  /** FALSE reaches every node below, down from the node that says it, and nothing else makes a
      node false. */
  lemma {:induction false} FalseComesDown(src: Source, n: Node, k: nat)
    requires SoundSource(src) && n in src.f.parent && Grounded(src.f.parent, n, k)
    ensures A.False in Final(src, n, k) <==> exists j: nat :: SaysFalse(src, n, j)
  {
    hide OwnOf, Final, SaysFalse;
    if A.False in Final(src, n, k) {
      var j := SaidSomewhere(src, n, k);
    }
    if j: nat :| SaysFalse(src, n, j) {
      HeardBelow(src, n, k, j);
    }
  }

  /** The second step keeps `inline`, and makes a node abstract only when its parent is. */
  lemma {:induction false} MembershipOf(s: AttributeSet, p: AttributeSet)
    requires A.Consistent(s) && A.Consistent(p)
    ensures var s2 := CopyMembership(CopyVisibility(s, p), p);
      && A.Consistent(s2) && (A.Inline in s2 <==> A.Inline in s)
      && (A.Abstract in s ==> A.Abstract in s2) && (A.Abstract in s2 ==> A.Abstract in s || A.Abstract in p)
  {
    hide A.Consistent;
    var s1 := CopyVisibility(s, p);
    if VISIBILITY !! s {
      Copy3IsConsistent(s, p, A.Public, A.Private, A.Protected);
    }
    VisibilityKeeps(s, p, A.Inline);
    VisibilityKeeps(s, p, A.Abstract);
    if MEMBERSHIP !! s1 {
      Copy3IsConsistent(s1, p, A.Static, A.Abstract, A.Virtual);
    }
    MembershipKeeps(s1, p);
  }

  lemma {:induction false} VisibilityKeeps(s: AttributeSet, p: AttributeSet, a: A.Attribute)
    requires a !in VISIBILITY
    ensures a in CopyVisibility(s, p) <==> a in s
  {
    hide A.Rivals;
  }

  lemma {:induction false} MembershipKeeps(s: AttributeSet, p: AttributeSet)
    ensures var r := CopyMembership(s, p);
      && (A.Inline in r <==> A.Inline in s)
      && (A.Abstract in s ==> A.Abstract in r) && (A.Abstract in r ==> A.Abstract in s || A.Abstract in p)
  {
    hide A.Rivals;
  }

  /** The steps after that do not touch `native`. */
  lemma {:induction false} NativeCopied(s2: AttributeSet, p: AttributeSet, isClass: bool)
    ensures A.Native in CopyClass(CopyFalse(Copy(Copy(s2, p, A.Native), p, A.Enumerable), p), p, isClass)
      <==> A.Native in Copy(s2, p, A.Native)
  {
    hide A.Rivals;
  }

  lemma {:induction false} NativeInherited(s: AttributeSet, p: AttributeSet, isClass: bool)
    requires A.Consistent(s) && A.Consistent(p)
    ensures A.Native in Inherit(s, p, isClass) <==> A.Native in p && A.Abstract !in s && A.Inline !in s
  {
    hide CopyClass, CopyFalse, CopyMembership, CopyVisibility;
    var s2 := CopyMembership(CopyVisibility(s, p), p);
    MembershipOf(s, p);
    NativeCopied(s2, p, isClass);
    assert A.Rivals(A.Native) == {A.Abstract, A.Inline};
    assert A.Native in p ==> A.Abstract !in p;
    assert A.Native in s2 ==> A.Abstract !in s2 && A.Inline !in s2;
    hide A.Rivals;
  }

  /** A node that inherits is native exactly when its parent is, its own list says neither abstract nor
      inline, and it is no function with a body; whether its list says native does not matter. */
  lemma {:induction false} NativeIsNotKept(src: Source, n: Node, k: nat)
    requires SoundSource(src) && n in src.f.parent && Grounded(src.f.parent, n, k) && Inherits(src.f, n)
    ensures A.Native in Final(src, n, k)
      <==> A.Native in Final(src, src.f.parent[n], k - 1)
           && A.Abstract !in OwnOf(src, n) && A.Inline !in OwnOf(src, n) && !HasBody(src.f, n)
    ensures A.Enumerable in Final(src, n, k) <==> A.Enumerable in Final(src, src.f.parent[n], k - 1)
  {
    hide OwnOf, CopyVisibility, CopyMembership, HasBody, HasList, SoundSource, Closed, A.Consistent;
    Setting(src, n);
    var p := src.f.parent[n];
    FinalIsConsistent(src, n, k);
    FinalIsConsistent(src, p, k - 1);
    NativeInherited(OwnOf(src, n), Final(src, p, k - 1), src.f.kind[p] == Class);
    EnumerableInherited(OwnOf(src, n), Final(src, p, k - 1), src.f.kind[p] == Class);
    hide Inherit;
  }

  /** The list of the node `j` steps above, from which `n` inherits and which itself inherits from none, says `a`; for
      native, no list below says abstract or inline, and no node from there down to `n` is a function with a body. */
  ghost predicate SaidAtTheTop(src: Source, a: A.Attribute, n: Node, j: nat)
    requires SoundSource(src) && n in src.f.parent
    decreases j
  {
    && (a == A.Native ==> !HasBody(src.f, n))
    && if j == 0 then !Inherits(src.f, n) && a in OwnOf(src, n)
       else
         && Inherits(src.f, n) && (a == A.Native ==> A.Abstract !in OwnOf(src, n) && A.Inline !in OwnOf(src, n))
         && SaidAtTheTop(src, a, src.f.parent[n], j - 1)
  }

  lemma {:induction false} TopStep(src: Source, a: A.Attribute, n: Node, k: nat)
    requires SoundSource(src) && n in src.f.parent && Grounded(src.f.parent, n, k) && (a == A.Native || a == A.Enumerable)
    ensures a in Final(src, n, k) <==>
      && (a == A.Native ==> !HasBody(src.f, n))
      && if !Inherits(src.f, n) then a in OwnOf(src, n)
         else (a == A.Native ==> A.Abstract !in OwnOf(src, n) && A.Inline !in OwnOf(src, n)) && a in Final(src, src.f.parent[n], k - 1)
  {
    hide OwnOf, Inherit, HasBody, SoundSource, Closed;
    Setting(src, n);
    if Inherits(src.f, n) {
      NativeIsNotKept(src, n, k);
    }
  }

  lemma {:induction false} DownFromTop(src: Source, a: A.Attribute, n: Node, k: nat) returns (j: nat)
    requires SoundSource(src) && n in src.f.parent && Grounded(src.f.parent, n, k) && (a == A.Native || a == A.Enumerable)
    requires a in Final(src, n, k)
    ensures SaidAtTheTop(src, a, n, j)
    decreases k
  {
    hide OwnOf, Final, HasBody;
    TopStep(src, a, n, k);
    if !Inherits(src.f, n) {
      j := 0;
    } else {
      j := DownFromTop(src, a, src.f.parent[n], k - 1);
      j := j + 1;
    }
  }

  lemma {:induction false} TopReaches(src: Source, a: A.Attribute, n: Node, k: nat, j: nat)
    requires SoundSource(src) && n in src.f.parent && Grounded(src.f.parent, n, k) && (a == A.Native || a == A.Enumerable)
    requires SaidAtTheTop(src, a, n, j)
    ensures a in Final(src, n, k)
    decreases j
  {
    hide OwnOf, Final, HasBody;
    TopStep(src, a, n, k);
    if j > 0 {
      TopReaches(src, a, src.f.parent[n], k - 1, j - 1);
    }
  }

  /** So native and enumerable depend on the lists and the bodies alone: only the topmost node that does not inherit can say
      them, and for native nothing below may contradict it. */
  lemma {:induction false} OnlyTheTopCounts(src: Source, a: A.Attribute, n: Node, k: nat)
    requires SoundSource(src) && n in src.f.parent && Grounded(src.f.parent, n, k) && (a == A.Native || a == A.Enumerable)
    ensures a in Final(src, n, k) <==> exists j: nat :: SaidAtTheTop(src, a, n, j)
  {
    hide OwnOf, Final, SaidAtTheTop;
    if a in Final(src, n, k) {
      var j := DownFromTop(src, a, n, k);
    }
    if j: nat :| SaidAtTheTop(src, a, n, j) {
      TopReaches(src, a, n, k, j);
    }
  }

  lemma {:induction false} EnumerableInherited(s: AttributeSet, p: AttributeSet, isClass: bool)
    ensures A.Enumerable in Inherit(s, p, isClass) <==> A.Enumerable in p
  {
    hide CopyVisibility, CopyMembership;
    assert A.Rivals(A.Enumerable) == {};
    hide A.Rivals;
  }

  /** A list that says native, below a parent that is not: it is lost. */
  lemma {:induction false} NativeIsLost()
    ensures A.Native in A.Put({A.Defined}, A.Native, true)
    ensures A.Native !in Inherit(A.Put({A.Defined}, A.Native, true), {A.Defined}, false)
  {
    hide CopyClass, CopyFalse, CopyMembership, CopyVisibility;
    assert A.Consistent({A.Defined});
    A.PutIsConsistent({A.Defined}, A.Native, true);
    NativeInherited(A.Put({A.Defined}, A.Native, true), {A.Defined}, false);
  }
}
