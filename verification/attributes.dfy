/** Node attributes: setting them, and preparing them from the attribute lists and the parents. */
module Attributes {
  import opened Text
  import opened NodeTree
  import opened ForestLaws
  import opened CleanTree
  import opened GotoTargets
  import opened OrderedMaps
  import A = AttributeKinds

  type AttributeSet = set<A.Attribute>

  // ------------------------------------------------------------------
  //  Setting attributes
  // ------------------------------------------------------------------

  /** `verify_attribute()`; `typed` are the nodes that may appear in an expression. */
  predicate Accepts(typed: NodeType -> bool, kind: NodeType, a: A.Attribute) {
    a == A.Defined || (if a == A.TypeOf then typed(kind) else kind != Program)
  }

  method GetAttribute(typed: NodeType -> bool, n: Node, a: A.Attribute) returns (v: bool, r: Outcome)
    ensures r == if Accepts(typed, n.kind, a) then Done else InternalError
    ensures r == InternalError <==> (a == A.TypeOf && !typed(n.kind)) || (n.kind == Program && a != A.TypeOf && a != A.Defined)
    ensures r == Done ==> v == (a in n.attributes)
  {
    if !Accepts(typed, n.kind, a) {
      return false, InternalError;
    }
    return a in n.attributes, Done;
  }

  method SetAttribute(typed: NodeType -> bool, n: Node, a: A.Attribute, v: bool) returns (r: Outcome)
    modifies n`attributes
    ensures r == if Accepts(typed, n.kind, a) then Done else InternalError
    ensures n.attributes == if r == Done then A.Put(old(n.attributes), a, v) else old(n.attributes)
  {
    if !Accepts(typed, n.kind, a) {
      return InternalError;
    }
    if v {
      var exclusive := VerifyExclusive(n, a);
      if !exclusive {
        return Done;
      }
    }
    n.attributes := if v then n.attributes + {a} else n.attributes - {a};
    r := Done;
  }

  /** The flags tested for each attribute; the others have no conflicts. */
  method VerifyExclusive(n: Node, a: A.Attribute) returns (ok: bool)
    ensures ok <==> forall b :: b in n.attributes ==> b !in A.Rivals(a)
  {
    var f := n.attributes;
    var conflict := false;
    match a {
      case RequireElse => conflict := A.EnsureThen in f;
      case EnsureThen => conflict := A.RequireElse in f;
      case Public => conflict := A.Private in f || A.Protected in f;
      case Private => conflict := A.Public in f || A.Protected in f;
      case Protected => conflict := A.Public in f || A.Private in f;
      case Abstract => conflict := A.Static in f || A.Constructor in f || A.Virtual in f || A.Native in f || A.Inline in f;
      case Constructor => conflict := A.Static in f || A.Virtual in f || A.Inline in f || A.Abstract in f;
      case Inline => conflict := A.Abstract in f || A.Constructor in f || A.Native in f || A.Virtual in f;
      case Native => conflict := A.Abstract in f || A.Inline in f;
      case Static => conflict := A.Abstract in f || A.Constructor in f || A.Virtual in f;
      case Virtual => conflict := A.Static in f || A.Constructor in f || A.Abstract in f || A.Inline in f;
      case ForEach => conflict := A.NoBreak in f || A.AutoBreak in f;
      case NoBreak => conflict := A.ForEach in f || A.AutoBreak in f;
      case AutoBreak => conflict := A.ForEach in f || A.NoBreak in f;
      case True => conflict := A.False in f;
      case False => conflict := A.True in f;
      case _ =>
    }
    ok := !conflict;
  }

  type AttributeMap = map<Node, AttributeSet>

  ghost function AttributesOf(S: set<Node>): AttributeMap
    reads S`attributes
  {
    map n | n in S :: n.attributes
  }

  datatype TreeSet = TreeSet(m: AttributeMap, outcome: Outcome)

  /** `set_attribute_tree()`: the node, then its children; an exception stops it there. */
  ghost function SetTree(f: Forest, typed: NodeType -> bool, m: AttributeMap, n: Node, a: A.Attribute, v: bool, h: nat): (r: TreeSet)
    requires Closed(f) && n in f.parent && m.Keys == f.parent.Keys
    ensures r.m.Keys == m.Keys
    decreases h, 0
  {
    if !Accepts(typed, f.kind[n], a) then TreeSet(m, InternalError)
    else
      var m' := m[n := A.Put(m[n], a, v)];
      if h == 0 then TreeSet(m', Done) else SetChildren(f, typed, m', n, |f.children[n]|, a, v, h - 1)
  }

  ghost function SetChildren(f: Forest, typed: NodeType -> bool, m: AttributeMap, n: Node, i: nat, a: A.Attribute, v: bool, h: nat): (r: TreeSet)
    requires Closed(f) && n in f.parent && m.Keys == f.parent.Keys && i <= |f.children[n]|
    ensures r.m.Keys == m.Keys
    decreases h, i + 1
  {
    if i == 0 then TreeSet(m, Done)
    else
      var r := SetChildren(f, typed, m, n, i - 1, a, v, h);
      assert f.children[n][i - 1] in f.children[n];
      if r.outcome != Done then r else SetTree(f, typed, r.m, f.children[n][i - 1], a, v, h)
  }

  ghost predicate AllConsistent(m: AttributeMap) {
    forall n {:trigger m[n]} :: n in m.Keys ==> A.Consistent(m[n])
  }

  /** Rivals never meet on a node, whether the call ends well or not. */
  lemma {:induction false} SetTreeIsConsistent(f: Forest, typed: NodeType -> bool, m: AttributeMap, n: Node, a: A.Attribute, v: bool, h: nat)
    requires Closed(f) && n in f.parent && m.Keys == f.parent.Keys && AllConsistent(m)
    ensures AllConsistent(SetTree(f, typed, m, n, a, v, h).m)
    decreases h, 0
  {
    hide A.Consistent, A.Put, A.Rivals;
    A.PutIsConsistent(m[n], a, v);
    var m' := m[n := A.Put(m[n], a, v)];
    if Accepts(typed, f.kind[n], a) && h > 0 {
      SetChildrenAreConsistent(f, typed, m', n, |f.children[n]|, a, v, h - 1);
    }
  }

  lemma {:induction false} SetChildrenAreConsistent(f: Forest, typed: NodeType -> bool, m: AttributeMap, n: Node, i: nat, a: A.Attribute, v: bool, h: nat)
    requires Closed(f) && n in f.parent && m.Keys == f.parent.Keys && i <= |f.children[n]| && AllConsistent(m)
    ensures AllConsistent(SetChildren(f, typed, m, n, i, a, v, h).m)
    decreases h, i + 1
  {
    hide AllConsistent;
    if i > 0 {
      SetChildrenAreConsistent(f, typed, m, n, i - 1, a, v, h);
      var r := SetChildren(f, typed, m, n, i - 1, a, v, h);
      assert f.children[n][i - 1] in f.children[n];
      if r.outcome == Done {
        SetTreeIsConsistent(f, typed, r.m, f.children[n][i - 1], a, v, h);
      }
    }
  }

  lemma {:induction false} TreeStep(f: Forest, typed: NodeType -> bool, m: AttributeMap, n: Node, a: A.Attribute, v: bool, h: nat)
    requires Closed(f) && n in f.parent && m.Keys == f.parent.Keys && h > 0
    ensures SetTree(f, typed, m, n, a, v, h) ==
      if !Accepts(typed, f.kind[n], a) then TreeSet(m, InternalError)
      else SetChildren(f, typed, m[n := A.Put(m[n], a, v)], n, |f.children[n]|, a, v, h - 1)
  {
  }

  lemma {:induction false} NoChildYet(f: Forest, typed: NodeType -> bool, m: AttributeMap, n: Node, a: A.Attribute, v: bool, h: nat)
    requires Closed(f) && n in f.parent && m.Keys == f.parent.Keys
    ensures SetChildren(f, typed, m, n, 0, a, v, h) == TreeSet(m, Done)
  {
  }

  lemma {:induction false} ChildStep(f: Forest, typed: NodeType -> bool, m: AttributeMap, n: Node, i: nat, a: A.Attribute, v: bool, h: nat)
    requires Closed(f) && n in f.parent && m.Keys == f.parent.Keys && i < |f.children[n]|
    ensures f.children[n][i] in f.parent
    ensures var r := SetChildren(f, typed, m, n, i, a, v, h);
      SetChildren(f, typed, m, n, i + 1, a, v, h)
      == if r.outcome != Done then r else SetTree(f, typed, r.m, f.children[n][i], a, v, h)
  {
    assert f.children[n][i] in f.children[n];
  }

  lemma {:induction false} StopsThere(f: Forest, typed: NodeType -> bool, m: AttributeMap, n: Node, i: nat, j: nat, a: A.Attribute, v: bool, h: nat)
    requires Closed(f) && n in f.parent && m.Keys == f.parent.Keys && i <= j <= |f.children[n]|
    requires SetChildren(f, typed, m, n, i, a, v, h).outcome != Done
    ensures SetChildren(f, typed, m, n, j, a, v, h) == SetChildren(f, typed, m, n, i, a, v, h)
    decreases j
  {
    if i < j {
      StopsThere(f, typed, m, n, i, j - 1, a, v, h);
    }
  }

  lemma {:induction false} AttributesAt(S: set<Node>, n: Node)
    requires n in S
    ensures AttributesOf(S).Keys == S && AttributesOf(S)[n] == n.attributes
  {
  }

  /** The first half of the routine: this node alone. */
  method SetHere(typed: NodeType -> bool, n: Node, a: A.Attribute, v: bool, ghost S: set<Node>) returns (r: Outcome)
    requires n in S
    modifies n`attributes
    ensures r == if Accepts(typed, n.kind, a) then Done else InternalError
    ensures var m := old(AttributesOf(S));
      n in m.Keys && AttributesOf(S) == if r == Done then m[n := A.Put(m[n], a, v)] else m
  {
    hide A.Put, A.Rivals, Accepts;
    r := SetAttribute(typed, n, a, v);
  }

  method SetAttributeTree(typed: NodeType -> bool, n: Node, a: A.Attribute, v: bool, ghost S: set<Node>, ghost h: nat) returns (r: Outcome)
    requires n in S && Linked(Snapshot(S)) && HeightBelow(Snapshot(S).parent, n, h)
    modifies S`attributes
    ensures Closed(Snapshot(S))
    ensures TreeSet(AttributesOf(S), r) == SetTree(Snapshot(S), typed, old(AttributesOf(S)), n, a, v, h)
    decreases h, 2
  {
    hide HeightBelow, Linked, Closed, SetTree, SetChildren, Snapshot, AttributesOf, A.Put, A.Rivals, Accepts;
    ghost var f, m := Snapshot(S), AttributesOf(S);
    LinkedIsClosed(f);
    SnapshotAt(S, n);
    AttributesAt(S, n);
    HeightPositive(f, n, h);
    TreeStep(f, typed, m, n, a, v, h);
    r := SetHere(typed, n, a, v, S);
    if r != Done {
      return;
    }
    r := SetEachChild(typed, n, a, v, S, h);
  }

  lemma {:induction false} NextChild(f: Forest, typed: NodeType -> bool, m: AttributeMap, now: AttributeMap, n: Node, i: nat, a: A.Attribute, v: bool, h: nat)
    requires Linked(f) && Closed(f) && n in f.parent && HeightBelow(f.parent, n, h) && h > 0
    requires m.Keys == f.parent.Keys && i < |f.children[n]|
    requires TreeSet(now, Done) == SetChildren(f, typed, m, n, i, a, v, h - 1)
    ensures var c := f.children[n][i];
      && c in f.parent && HeightBelow(f.parent, c, h - 1) && now.Keys == f.parent.Keys
      && SetChildren(f, typed, m, n, i + 1, a, v, h - 1) == SetTree(f, typed, now, c, a, v, h - 1)
  {
    hide HeightBelow, Linked, Closed, SetTree, SetChildren;
    LinkedIsClosed(f);
    ChildIsIn(f, n, i);
    ChildStep(f, typed, m, n, i, a, v, h - 1);
    ChildHeight(f, n, f.children[n][i], h);
  }

  /** One turn of that loop. */
  method SetOneChild(typed: NodeType -> bool, n: Node, idx: nat, a: A.Attribute, v: bool, ghost S: set<Node>, ghost h: nat, ghost m: AttributeMap) returns (r: Outcome)
    requires n in S && Linked(Snapshot(S)) && HeightBelow(Snapshot(S).parent, n, h) && h > 0
    requires m.Keys == S && idx < |n.children|
    requires Closed(Snapshot(S)) && n in Snapshot(S).parent && m.Keys == Snapshot(S).parent.Keys && idx < |Snapshot(S).children[n]|
    requires TreeSet(AttributesOf(S), Done) == SetChildren(Snapshot(S), typed, m, n, idx, a, v, h - 1)
    modifies S`attributes
    ensures Closed(Snapshot(S))
    ensures TreeSet(AttributesOf(S), r) == SetChildren(Snapshot(S), typed, m, n, idx + 1, a, v, h - 1)
    decreases h, 0
  {
    hide HeightBelow, Linked, Closed, SetTree, SetChildren, Snapshot, AttributesOf, A.Put, A.Rivals, Accepts;
    SnapshotAt(S, n);
    NextChild(Snapshot(S), typed, m, AttributesOf(S), n, idx, a, v, h);
    r := SetAttributeTree(typed, n.children[idx], a, v, S, h - 1);
  }

  /** The loop on the children. */
  method SetEachChild(typed: NodeType -> bool, n: Node, a: A.Attribute, v: bool, ghost S: set<Node>, ghost h: nat) returns (r: Outcome)
    requires n in S && Linked(Snapshot(S)) && HeightBelow(Snapshot(S).parent, n, h) && h > 0
    modifies S`attributes
    ensures Closed(Snapshot(S))
    ensures TreeSet(AttributesOf(S), r)
      == SetChildren(Snapshot(S), typed, old(AttributesOf(S)), n, |Snapshot(S).children[n]|, a, v, h - 1)
    decreases h, 1
  {
    hide HeightBelow, Linked, Closed, SetTree, SetChildren, Snapshot, AttributesOf, A.Put, A.Rivals, Accepts;
    ghost var f, m := Snapshot(S), AttributesOf(S);
    LinkedIsClosed(f);
    SnapshotAt(S, n);
    AttributesAt(S, n);
    NoChildYet(f, typed, m, n, a, v, h - 1);
    r := Done;
    var idx := 0;
    while idx < |n.children|
      invariant 0 <= idx <= |n.children| && r == Done
      invariant Snapshot(S) == f && n.children == f.children[n]
      invariant TreeSet(AttributesOf(S), r) == SetChildren(f, typed, m, n, idx, a, v, h - 1)
    {
      r := SetOneChild(typed, n, idx, a, v, S, h, m);
      idx := idx + 1;
      if r != Done {
        StopsThere(f, typed, m, n, idx, |n.children|, a, v, h - 1);
        return;
      }
    }
  }
}
