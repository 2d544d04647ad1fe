/** What the tie-break decides: a match node hangs below the parameter list of the call, or nowhere. */
module OverloadTies {
  import opened OrderedMaps
  import opened Overload
  import opened NodeTree
  import opened ForestLaws
  import opened ClassMember
  import ClassHierarchy

  /** The code's comparison of two match nodes, in the tree as it is then. */
  ghost function Duel(f: Forest, h: ClassHierarchy.Hierarchy, cls: map<Node, ClassHierarchy.Cls>, best: Child, candidate: Child): Verdict
    requires best.ParamMatch? && candidate.ParamMatch?
  {
    var v := Compare(best, candidate);
    if v != Undecided then v
    else if ObjectsDerive(f, h, cls, best.node, candidate.node) then KeepBest
    else if ObjectsDerive(f, h, cls, candidate.node, best.node) then TakeMatch
    else Undecided
  }

  /** The call is written inside a class or an interface. */
  ghost predicate CallInClass(f: Forest, cls: map<Node, ClassHierarchy.Cls>, params: Node) {
    exists c :: InClass(f, cls, params, c)
  }

  lemma {:induction false} FirstAbove(f: Forest, n: Node, j: nat)
    requires n in f.parent && n in f.kind && f.kind[n] == NodeTree.ParamMatch
    ensures FirstAt(f, n, j + 1) <==> FirstAt(f, f.parent[n], j)
  {
    assert forall i: nat :: Up(f.parent, n, i + 1) == Up(f.parent, f.parent[n], i);
    if FirstAt(f, n, j + 1) {
      forall i | 0 <= i < j
        ensures var x := Up(f.parent, f.parent[n], i); x != null && x in f.kind && !IsClass(f.kind[x]) && !IsBoundary(f.kind[x])
      {
        assert Up(f.parent, n, i + 1) == Up(f.parent, f.parent[n], i);
      }
    }
    if FirstAt(f, f.parent[n], j) {
      forall i | 0 <= i < j + 1
        ensures var x := Up(f.parent, n, i); x != null && x in f.kind && !IsClass(f.kind[x]) && !IsBoundary(f.kind[x])
      {
        assert i > 0 ==> Up(f.parent, n, i) == Up(f.parent, f.parent[n], i - 1);
      }
    }
  }

  /** A match node is in the class its parameter list is in; one that was deleted is in none. */
  lemma {:induction false} WhereTheCallIs(f: Forest, cls: map<Node, ClassHierarchy.Cls>, n: Node, c: ClassHierarchy.Cls)
    requires n in f.parent && n in f.kind && f.kind[n] == NodeTree.ParamMatch
    ensures InClass(f, cls, n, c) <==> InClass(f, cls, f.parent[n], c)
    ensures f.parent[n] == null ==> !InClass(f, cls, n, c)
  {
    if InClass(f, cls, n, c) {
      var j: nat :| FirstAt(f, n, j)
        && var x := Up(f.parent, n, j); x != null && x in f.kind && IsClass(f.kind[x]) && x in cls && cls[x] == c;
      assert Up(f.parent, n, 0) == n && j > 0;
      FirstAbove(f, n, j - 1);
      assert FirstAt(f, f.parent[n], j - 1);
    }
    if InClass(f, cls, f.parent[n], c) {
      var j: nat :| FirstAt(f, f.parent[n], j)
        && var x := Up(f.parent, f.parent[n], j); x != null && x in f.kind && IsClass(f.kind[x]) && x in cls && cls[x] == c;
      FirstAbove(f, n, j);
      assert FirstAt(f, n, j + 1);
    }
  }

  /** Two candidates of one class are never left undecided: the first one is kept. */
  lemma {:induction false} SameClassKeepsFirst(f: Forest, h: ClassHierarchy.Hierarchy, cls: map<Node, ClassHierarchy.Cls>, a: Child, b: Child, c: ClassHierarchy.Cls)
    requires a.ParamMatch? && b.ParamMatch? && InClass(f, cls, a.node, c) && InClass(f, cls, b.node, c)
    ensures Duel(f, h, cls, a, b) == if Compare(a, b) == Undecided then KeepBest else Compare(a, b)
  {
    hide InClass, Compare;
    assert ClassHierarchy.Derives(h, c, c);
  }

  /** A match node of the list, or one that was deleted. */
  ghost predicate OfCall(f: Forest, params: Node, c: Child) {
    && c.ParamMatch? && c.node in f.parent && c.node in f.kind && f.kind[c.node] == NodeTree.ParamMatch
    && (f.parent[c.node] == params || f.parent[c.node] == null)
  }

  /** Between match nodes of one call the tie-break only asks whether the call is in a class and both are
      still in the list; so it always keeps the first one, or nobody wins. */
  lemma {:induction false} DuelIs(f: Forest, h: ClassHierarchy.Hierarchy, cls: map<Node, ClassHierarchy.Cls>, params: Node, a: Child, b: Child)
    requires OfCall(f, params, a) && OfCall(f, params, b)
    ensures Duel(f, h, cls, a, b) ==
      if Compare(a, b) != Undecided then Compare(a, b)
      else if CallInClass(f, cls, params) && f.parent[a.node] == params && f.parent[b.node] == params then KeepBest
      else Undecided
  {
    hide InClass, Compare;
    forall c
      ensures InClass(f, cls, a.node, c) <==> f.parent[a.node] == params && InClass(f, cls, params, c)
      ensures InClass(f, cls, b.node, c) <==> f.parent[b.node] == params && InClass(f, cls, params, c)
    {
      WhereTheCallIs(f, cls, a.node, c);
      WhereTheCallIs(f, cls, b.node, c);
    }
    if c :| InClass(f, cls, params, c) {
      assert ClassHierarchy.Derives(h, c, c);
    }
  }

  // ------------------------------------------------------------------
  //  Deleting children of the list
  // ------------------------------------------------------------------

  /** From `f` to `g` nothing happened but that children of `params` were deleted. */
  ghost predicate OnlyDeleted(f: Forest, g: Forest, params: Node) {
    && g.kind == f.kind && g.lock == f.lock && g.parent.Keys == f.parent.Keys && g.children.Keys == f.children.Keys
    && (forall n {:trigger g.parent[n]} :: n in f.parent ==> g.parent[n] == f.parent[n] || (f.parent[n] == params && g.parent[n] == null))
    && (forall n {:trigger g.children[n]} :: n in f.children && n != params ==> g.children[n] == f.children[n])
  }

  /** Going up from `n` never leads to `p`. */
  ghost predicate NeverTo(up: ParentMap, n: Node?, p: Node) {
    forall j: nat :: j > 0 ==> Up(up, n, j) != p
  }

  lemma {:induction false} NeverToAbove(up: ParentMap, n: Node, p: Node)
    requires NeverTo(up, n, p) && n in up
    ensures up[n] != p && NeverTo(up, up[n], p)
  {
    assert Up(up, n, 1) == Up(up, up[n], 0) == up[n];
    forall j: nat | j > 0 ensures Up(up, up[n], j) != p {
      assert Up(up, n, j + 1) == Up(up, up[n], j);
    }
  }

  /** What is above the list stays. */
  lemma {:induction false} SameAbove(f: Forest, g: Forest, params: Node, k: nat)
    requires Closed(f) && params in f.parent && Grounded(f.parent, params, k) && OnlyDeleted(f, g, params)
    ensures forall j: nat :: Up(g.parent, params, j) == Up(f.parent, params, j)
    ensures Grounded(g.parent, params, k)
  {
    forall j: nat | j > 0 ensures Up(f.parent, params, j) != params {
      GroundedNoReturn(f.parent, params, k, j);
    }
    forall j: nat ensures Up(g.parent, params, j) == Up(f.parent, params, j) {
      SameChain(f, g, params, params, j);
    }
    SameGround(f, g, params, params, k);
  }

  lemma {:induction false} SameChain(f: Forest, g: Forest, params: Node, n: Node?, j: nat)
    requires OnlyDeleted(f, g, params) && NeverTo(f.parent, n, params)
    ensures Up(g.parent, n, j) == Up(f.parent, n, j)
    decreases j
  {
    if j > 0 && n != null && n in f.parent {
      NeverToAbove(f.parent, n, params);
      assert g.parent[n] == f.parent[n];
      SameChain(f, g, params, f.parent[n], j - 1);
    }
  }

  lemma {:induction false} SameGround(f: Forest, g: Forest, params: Node, n: Node?, k: nat)
    requires OnlyDeleted(f, g, params) && NeverTo(f.parent, n, params) && Grounded(f.parent, n, k)
    ensures Grounded(g.parent, n, k)
    decreases k
  {
    if n != null {
      NeverToAbove(f.parent, n, params);
      assert g.parent[n] == f.parent[n];
      SameGround(f, g, params, f.parent[n], k - 1);
    }
  }

  /** So the call is in a class or not, whatever was deleted. */
  lemma {:induction false} SameCall(f: Forest, g: Forest, cls: map<Node, ClassHierarchy.Cls>, params: Node, k: nat)
    requires Closed(f) && params in f.parent && Grounded(f.parent, params, k) && OnlyDeleted(f, g, params)
    ensures CallInClass(g, cls, params) <==> CallInClass(f, cls, params)
  {
    SameAbove(f, g, params, k);
    forall j: nat ensures FirstAt(g, params, j) <==> FirstAt(f, params, j) {
    }
    forall c ensures InClass(g, cls, params, c) <==> InClass(f, cls, params, c) {
      if InClass(g, cls, params, c) {
        var j: nat :| FirstAt(g, params, j)
          && var x := Up(g.parent, params, j); x != null && x in g.kind && IsClass(g.kind[x]) && x in cls && cls[x] == c;
        assert FirstAt(f, params, j);
      }
      if InClass(f, cls, params, c) {
        var j: nat :| FirstAt(f, params, j)
          && var x := Up(f.parent, params, j); x != null && x in f.kind && IsClass(f.kind[x]) && x in cls && cls[x] == c;
        assert FirstAt(g, params, j);
      }
    }
  }
}
