/** What the functions of an optimization do to the tree around the matched node: they exchange and remove nodes
    below it, or the node itself, with `replace_with()` and `set_parent()`. */
module OptimizerSlot {
  import opened Sequences
  import opened NodeTree
  import opened ForestLaws
  import opened ReplaceLaws

  /** `Exchange` puts `src` in the place of `dst`; `Remove` detaches a node. */
  datatype Action = Exchange(dst: Node, src: Node) | Remove(node: Node)

  /** `x` is the child `i` of `p`, or below it. */
  ghost predicate InSlot(f: Forest, p: Node, i: nat, x: Node) {
    && Linked(f) && Acyclic(f.parent) && p in f.parent && x in f.parent
    && i < |f.children[p]| && Under(f.parent, x, f.children[p][i])
  }

  /** What replaces a node is a node from below it, or a new one that is not above the slot. What is removed is below
      the node in the slot. */
  ghost predicate Allowed(f: Forest, p: Node, i: nat, a: Action) {
    match a
    case Exchange(dst, src) =>
      InSlot(f, p, i, dst) && src in f.parent && src != dst
      && (Under(f.parent, src, dst) || (f.parent[src] == null && !Under(f.parent, p, src)))
    case Remove(x) => InSlot(f, p, i, x) && x != f.children[p][i]
  }

  ghost function Act(f: Forest, a: Action): (r: (Forest, Outcome))
    requires Closed(f) && (if a.Exchange? then a.dst in f.parent && a.src in f.parent else a.node in f.parent)
    ensures Closed(r.0)
  {
    match a
    case Exchange(dst, src) => Replace(f, dst, src)
    case Remove(x) => Reparent(f, x, null, -1)
  }

  /** The parent of a node is not below it. */
  lemma {:induction false} ParentIsAbove(f: Forest, x: Node)
    requires Linked(f) && Acyclic(f.parent) && x in f.parent && f.parent[x] != null
    ensures f.parent[x] != x && !Under(f.parent, f.parent[x], x)
  {
    AcyclicMeansNoOwnAncestor(f.parent);
    var y := f.parent[x];
    forall k: nat ensures Up(f.parent, y, k) != x {
      assert Up(f.parent, x, k + 1) == Up(f.parent, y, k);
    }
    assert Up(f.parent, y, 0) == y;
  }

  /** Under something and not the same: so is the parent. */
  lemma {:induction false} ParentUnder(f: Forest, x: Node, y: Node)
    requires Linked(f) && x in f.parent && Under(f.parent, x, y) && x != y
    ensures f.parent[x] != null && f.parent[x] in f.parent && Under(f.parent, f.parent[x], y)
  {
    var k: nat :| Up(f.parent, x, k) == y;
    assert k > 0 && Up(f.parent, f.parent[x], k - 1) == y;
  }

  lemma {:induction false} UnderTransitive(f: Forest, x: Node, y: Node, z: Node)
    requires Linked(f) && x in f.parent && Under(f.parent, x, y) && Under(f.parent, y, z)
    ensures Under(f.parent, x, z)
  {
    var j: nat :| Up(f.parent, x, j) == y;
    var k: nat :| Up(f.parent, y, k) == z;
    UpAdd(f.parent, x, j, k);
    assert Up(f.parent, x, j + k) == z;
  }

  /** Every node of the slot has a parent, and only the one at the top is a child of `p`. */
  lemma {:induction false} TopOfSlot(f: Forest, p: Node, i: nat, x: Node)
    requires InSlot(f, p, i, x)
    ensures f.parent[x] != null && f.parent[x] in f.parent && f.parent[x] != x
    ensures f.parent[x] == p <==> x == f.children[p][i]
    ensures x == f.children[p][i] ==> IndexOf(f.children[p], x) == i
  {
    hide Acyclic, Under;
    var top := f.children[p][i];
    assert top in f.children[p];
    IndexOfAt(f.children[p], i);
    ParentIsAbove(f, top);
    if x != top {
      ParentUnder(f, x, top);
    }
    ParentIsAbove(f, x);
  }

  /** From a node of the slot one comes to `p`. */
  lemma {:induction false} SlotIsUnder(f: Forest, p: Node, i: nat, x: Node)
    requires InSlot(f, p, i, x)
    ensures Under(f.parent, x, p)
  {
    var top := f.children[p][i];
    assert top in f.children[p] && f.parent[top] == p;
    assert Up(f.parent, top, 1) == p by { assert Up(f.parent, p, 0) == p; }
    assert Under(f.parent, top, p);
    UnderTransitive(f, x, top, p);
  }

  /** A root that is above a node below `p` is above `p`. */
  lemma {:induction false} RootAbove(f: Forest, q: Node, p: Node, x: Node)
    requires Linked(f) && q in f.parent && x in f.parent && f.parent[x] == null
    requires Under(f.parent, q, p) && Under(f.parent, q, x)
    ensures Under(f.parent, p, x)
  {
    var j: nat :| Up(f.parent, q, j) == x;
    var k: nat :| Up(f.parent, q, k) == p;
    if k <= j {
      UpAdd(f.parent, q, k, j - k);
      assert Up(f.parent, p, j - k) == x;
    } else {
      AboveRoot(f, x, k - j);
      UpAdd(f.parent, q, j, k - j);
    }
  }

  lemma {:induction false} AboveRoot(f: Forest, x: Node, k: nat)
    requires x in f.parent && f.parent[x] == null && k > 0
    ensures Up(f.parent, x, k) == null
  {
    assert Up(f.parent, f.parent[x], k - 1) == null;
  }

  /** The new node is not a sibling of the old one, nor above it, nor beside the slot. */
  lemma {:induction false} Newcomer(f: Forest, p: Node, i: nat, dst: Node, src: Node)
    requires Allowed(f, p, i, Exchange(dst, src))
    ensures f.parent[dst] != null && f.parent[dst] in f.parent
    ensures f.parent[src] != f.parent[dst] && f.parent[src] != p && !Under(f.parent, f.parent[dst], src)
  {
    hide Acyclic, Under;
    TopOfSlot(f, p, i, dst);
    if Under(f.parent, src, dst) {
      FromBelow(f, p, i, dst, src);
    } else if Under(f.parent, f.parent[dst], src) {
      if dst != f.children[p][i] {
        ParentUnder(f, dst, f.children[p][i]);
        SlotIsUnder(f, p, i, f.parent[dst]);
        RootAbove(f, f.parent[dst], p, src);
      }
    }
  }

  lemma {:induction false} FromBelow(f: Forest, p: Node, i: nat, dst: Node, src: Node)
    requires InSlot(f, p, i, dst) && src in f.parent && src != dst && Under(f.parent, src, dst)
    requires f.parent[dst] != null && f.parent[dst] in f.parent
    ensures f.parent[src] != f.parent[dst] && f.parent[src] != p && !Under(f.parent, f.parent[dst], src)
  {
    hide Acyclic, Under;
    var q, top := f.parent[dst], f.children[p][i];
    ParentUnder(f, src, dst);
    UnderTransitive(f, src, dst, top);
    TopOfSlot(f, p, i, src);
    ParentIsAbove(f, dst);
    if src == top {
      ParentUnder(f, dst, src);
    }
    if Under(f.parent, q, src) {
      UnderTransitive(f, q, src, dst);
    }
  }

  /** One action: the vector of `p` changes in no place but `i`, and there only if the child itself was replaced. */
  lemma {:induction false} SlotStep(f: Forest, p: Node, i: nat, a: Action)
    requires Allowed(f, p, i, a) && Act(f, a).1 == Done
    ensures var g := Act(f, a).0;
      && Linked(g) && Acyclic(g.parent) && p in g.parent && p in g.children
      && g.children[p] == if a.Exchange? && a.dst == f.children[p][i] then f.children[p][i := a.src] else f.children[p]
  {
    hide Acyclic, Under, NoDup, IndexOf, Without, Replace, Reparent;
    match a {
      case Exchange(dst, src) =>
        TopOfSlot(f, p, i, dst);
        Newcomer(f, p, i, dst, src);
        ReplaceInPlace(f, dst, src, p);
        ReplaceRestores(f, dst, src);
        ReplaceAcyclic(f, dst, src);
      case Remove(x) =>
        TopOfSlot(f, p, i, x);
        ReparentOutcomes(f, x, null, -1);
        ReparentKeepsLinks(f, x, null, -1);
        MoveAt(f, x, null, -1, p);
        AcyclicUnlessMoved(f, x, null, -1);
    }
  }

  /** The actions can be carried out one after the other. */
  ghost predicate AllowedRun(f: Forest, p: Node, i: nat, actions: seq<Action>)
    decreases |actions|
  {
    actions == []
    || (Allowed(f, p, i, actions[0]) && Act(f, actions[0]).1 == Done && AllowedRun(Act(f, actions[0]).0, p, i, actions[1..]))
  }

  ghost function After(f: Forest, p: Node, i: nat, actions: seq<Action>): Forest
    requires AllowedRun(f, p, i, actions)
    decreases |actions|
  {
    if actions == [] then f else After(Act(f, actions[0]).0, p, i, actions[1..])
  }

  /** So `optimize_tree()` finds in the slot what the node became: whatever the functions of the optimizations exchange and
      remove, the parent keeps the number of its children and all others, in their places. */
  lemma {:induction false} SlotIsKept(f: Forest, p: Node, i: nat, actions: seq<Action>)
    requires Linked(f) && Acyclic(f.parent) && p in f.parent && i < |f.children[p]| && AllowedRun(f, p, i, actions)
    ensures var g := After(f, p, i, actions);
      && Linked(g) && Acyclic(g.parent) && p in g.parent && p in g.children
      && |g.children[p]| == |f.children[p]|
      && (forall j :: 0 <= j < |f.children[p]| && j != i ==> g.children[p][j] == f.children[p][j])
      && g.children[p][i] in g.parent && g.parent[g.children[p][i]] == p
    decreases |actions|
  {
    hide Acyclic, NoDup, Replace, Reparent;
    if actions == [] {
      assert f.children[p][i] in f.children[p];
    } else {
      SlotStep(f, p, i, actions[0]);
      SlotIsKept(Act(f, actions[0]).0, p, i, actions[1..]);
    }
  }
}
