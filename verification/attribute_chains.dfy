/** How static, abstract and virtual, and dynamic and final, come down the tree. */
module AttributeChains {
  import opened NodeTree
  import opened ForestLaws
  import opened Attributes
  import opened PrepareAttributes
  import opened AttributeLaws
  import A = AttributeKinds
  import L = AttributeLaws

  // ------------------------------------------------------------------
  //  Static, abstract, virtual
  // ------------------------------------------------------------------

  /** What of these three the copying lets through. */
  lemma {:induction false} CopiedMember(s: AttributeSet, p: AttributeSet, w: A.Attribute)
    requires MEMBERSHIP !! s && A.Consistent(p) && w in MEMBERSHIP
    ensures w in CopyMembership(s, p) <==> w in p && A.Rivals(w) !! s
  {
    assert A.Static in p ==> A.Rivals(A.Static) !! p;
    assert A.Abstract in p ==> A.Rivals(A.Abstract) !! p;
    assert A.Virtual in p ==> A.Rivals(A.Virtual) !! p;
    assert A.Rivals(A.Static) == {A.Abstract, A.Constructor, A.Virtual};
    assert A.Rivals(A.Abstract) == {A.Static, A.Constructor, A.Virtual, A.Native, A.Inline};
    assert A.Rivals(A.Virtual) == {A.Static, A.Constructor, A.Abstract, A.Inline};
    hide A.Rivals, A.Consistent;
  }

  lemma {:induction false} OtherRivals(s: AttributeSet, p: AttributeSet, w: A.Attribute)
    requires w in MEMBERSHIP
    ensures A.Rivals(w) !! CopyVisibility(s, p) <==> A.Rivals(w) !! s
    ensures MEMBERSHIP !! CopyVisibility(s, p) <==> MEMBERSHIP !! s
    ensures w in CopyVisibility(s, p) <==> w in s
  {
    assert A.Rivals(w) !! VISIBILITY;
    hide A.Rivals;
    forall b | b !in VISIBILITY ensures b in CopyVisibility(s, p) <==> b in s {
      VisibilityKeeps(s, p, b);
    }
  }

  lemma {:induction false} MemberStays(s2: AttributeSet, p: AttributeSet, isClass: bool, w: A.Attribute)
    requires w in MEMBERSHIP
    ensures w in CopyClass(CopyFalse(Copy(Copy(s2, p, A.Native), p, A.Enumerable), p), p, isClass) <==> w in s2
  {
    hide A.Rivals;
  }

  lemma {:induction false} InheritedMember(s: AttributeSet, p: AttributeSet, isClass: bool, w: A.Attribute)
    requires A.Consistent(p) && w in MEMBERSHIP
    ensures w in Inherit(s, p, isClass) <==> if MEMBERSHIP !! s then w in p && A.Rivals(w) !! s else w in s
  {
    hide A.Rivals, A.Consistent, CopyVisibility, CopyFalse, CopyClass, Copy;
    var s1 := CopyVisibility(s, p);
    OtherRivals(s, p, w);
    if MEMBERSHIP !! s1 {
      CopiedMember(s1, p, w);
    }
    MemberStays(CopyMembership(s1, p), p, isClass, w);
  }

  /** A node whose list says none of the three has the one of its parent, unless its list says something that excludes it. */
  lemma {:induction false} MemberStep(src: Source, w: A.Attribute, n: Node, k: nat)
    requires SoundSource(src) && n in src.f.parent && Grounded(src.f.parent, n, k) && w in MEMBERSHIP
    ensures w in L.Final(src, n, k) <==>
      if MEMBERSHIP !! OwnOf(src, n) && Inherits(src.f, n) then w in L.Final(src, src.f.parent[n], k - 1) && A.Rivals(w) !! OwnOf(src, n)
      else w in OwnOf(src, n)
  {
    hide OwnOf, Inherit, A.Rivals, A.Consistent, HasBody, SoundSource, Closed, Inherits;
    Setting(src, n);
    if Inherits(src.f, n) {
      var p := src.f.parent[n];
      FinalIsConsistent(src, p, k - 1);
      InheritedMember(OwnOf(src, n), L.Final(src, p, k - 1), src.f.kind[p] == Class, w);
    }
  }

  /** The list of the node `j` steps above says `w`; those on the way say none of the three, and nothing that excludes `w`. */
  ghost predicate MemberFrom(src: Source, w: A.Attribute, n: Node, j: nat)
    requires SoundSource(src) && n in src.f.parent
    decreases j
  {
    if j == 0 then w in OwnOf(src, n)
    else
      && MEMBERSHIP !! OwnOf(src, n) && A.Rivals(w) !! OwnOf(src, n) && Inherits(src.f, n)
      && MemberFrom(src, w, src.f.parent[n], j - 1)
  }

  lemma {:induction false} MemberDown(src: Source, w: A.Attribute, n: Node, k: nat, j: nat)
    requires SoundSource(src) && n in src.f.parent && Grounded(src.f.parent, n, k) && w in MEMBERSHIP && MemberFrom(src, w, n, j)
    ensures w in L.Final(src, n, k)
    decreases j
  {
    hide OwnOf, L.Final, A.Rivals;
    MemberStep(src, w, n, k);
    if j > 0 {
      MemberDown(src, w, src.f.parent[n], k - 1, j - 1);
    }
  }

  lemma {:induction false} MemberUp(src: Source, w: A.Attribute, n: Node, k: nat) returns (j: nat)
    requires SoundSource(src) && n in src.f.parent && Grounded(src.f.parent, n, k) && w in MEMBERSHIP && w in L.Final(src, n, k)
    ensures MemberFrom(src, w, n, j)
    decreases k
  {
    hide OwnOf, L.Final, A.Rivals;
    MemberStep(src, w, n, k);
    if MEMBERSHIP !! OwnOf(src, n) && Inherits(src.f, n) {
      j := MemberUp(src, w, src.f.parent[n], k - 1);
      j := j + 1;
    } else {
      j := 0;
    }
  }

  /** Static, abstract and virtual come from the nearest list that says one of them, past lists that do not exclude it. */
  lemma {:induction false} MembershipComesDown(src: Source, w: A.Attribute, n: Node, k: nat)
    requires SoundSource(src) && n in src.f.parent && Grounded(src.f.parent, n, k) && w in MEMBERSHIP
    ensures w in L.Final(src, n, k) <==> exists j: nat :: MemberFrom(src, w, n, j)
  {
    hide L.Final, MemberFrom;
    if w in L.Final(src, n, k) {
      var j := MemberUp(src, w, n, k);
    }
    if j: nat :| MemberFrom(src, w, n, j) {
      MemberDown(src, w, n, k, j);
    }
  }

  // ------------------------------------------------------------------
  //  Dynamic and final
  // ------------------------------------------------------------------

  lemma {:induction false} InheritedOfClass(s: AttributeSet, p: AttributeSet, isClass: bool, a: A.Attribute)
    requires a == A.Dynamic || a == A.Final
    ensures a in Inherit(s, p, isClass) <==> if isClass then a in s else a in p
  {
    hide CopyVisibility, CopyMembership, CopyFalse;
    assert A.Rivals(a) == {};
    StepsKeep(s, p, a);
    var s3 := CopyFalse(Copy(Copy(CopyMembership(CopyVisibility(s, p), p), p, A.Native), p, A.Enumerable), p);
    assert A.Rivals(A.Dynamic) == A.Rivals(A.Final) == {};
    hide A.Rivals;
  }

  lemma {:induction false} StepsKeep(s: AttributeSet, p: AttributeSet, a: A.Attribute)
    requires a == A.Dynamic || a == A.Final
    ensures a in CopyFalse(Copy(Copy(CopyMembership(CopyVisibility(s, p), p), p, A.Native), p, A.Enumerable), p) <==> a in s
  {
    hide A.Rivals, CopyVisibility;
    VisibilityKeeps(s, p, a);
    assert a in CopyMembership(CopyVisibility(s, p), p) <==> a in CopyVisibility(s, p);
  }

  lemma {:induction false} OfClassStep(src: Source, a: A.Attribute, n: Node, k: nat)
    requires SoundSource(src) && n in src.f.parent && Grounded(src.f.parent, n, k) && (a == A.Dynamic || a == A.Final)
    ensures a in L.Final(src, n, k) <==>
      if Inherits(src.f, n) && src.f.kind[src.f.parent[n]] != Class then a in L.Final(src, src.f.parent[n], k - 1) else a in OwnOf(src, n)
  {
    hide OwnOf, Inherit, HasList;
    if Inherits(src.f, n) {
      var p := src.f.parent[n];
      InheritedOfClass(OwnOf(src, n), L.Final(src, p, k - 1), src.f.kind[p] == Class, a);
    }
  }

  /** `n` takes them over from the node `j` steps above, whose own list counts: its parent is a class, or it inherits from none. */
  ghost predicate TakenFrom(src: Source, a: A.Attribute, n: Node, j: nat)
    requires SoundSource(src) && n in src.f.parent
    decreases j
  {
    var takes := Inherits(src.f, n) && src.f.kind[src.f.parent[n]] != Class;
    if j == 0 then !takes && a in OwnOf(src, n) else takes && TakenFrom(src, a, src.f.parent[n], j - 1)
  }

  lemma {:induction false} TakenDown(src: Source, a: A.Attribute, n: Node, k: nat, j: nat)
    requires SoundSource(src) && n in src.f.parent && Grounded(src.f.parent, n, k) && (a == A.Dynamic || a == A.Final) && TakenFrom(src, a, n, j)
    ensures a in L.Final(src, n, k)
    decreases j
  {
    hide OwnOf, L.Final;
    OfClassStep(src, a, n, k);
    if j > 0 {
      TakenDown(src, a, src.f.parent[n], k - 1, j - 1);
    }
  }

  lemma {:induction false} TakenUp(src: Source, a: A.Attribute, n: Node, k: nat) returns (j: nat)
    requires SoundSource(src) && n in src.f.parent && Grounded(src.f.parent, n, k) && (a == A.Dynamic || a == A.Final) && a in L.Final(src, n, k)
    ensures TakenFrom(src, a, n, j)
    decreases k
  {
    hide OwnOf, L.Final;
    OfClassStep(src, a, n, k);
    if Inherits(src.f, n) && src.f.kind[src.f.parent[n]] != Class {
      j := TakenUp(src, a, src.f.parent[n], k - 1);
      j := j + 1;
    } else {
      j := 0;
    }
  }

  /** Dynamic and final are not the node's own but those of the node nearest to the class, or to the top, above it. */
  lemma {:induction false} DynamicComesDown(src: Source, a: A.Attribute, n: Node, k: nat)
    requires SoundSource(src) && n in src.f.parent && Grounded(src.f.parent, n, k) && (a == A.Dynamic || a == A.Final)
    ensures a in L.Final(src, n, k) <==> exists j: nat :: TakenFrom(src, a, n, j)
  {
    hide L.Final, TakenFrom;
    if a in L.Final(src, n, k) {
      var j := TakenUp(src, a, n, k);
    }
    if j: nat :| TakenFrom(src, a, n, j) {
      TakenDown(src, a, n, k, j);
    }
  }
}
