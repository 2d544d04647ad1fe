/** `replace_with()`: an exchange in place that goes through a window in which the parent
    is not locked. */
module ReplaceLaws {
  import opened Sequences
  import opened NodeTree
  import opened ForestLaws

  /** The window: the parent unlocked. */
  ghost function Window(f: Forest, c: Node): (w: Forest)
    requires Closed(f) && c in f.parent && f.parent[c] != null
    ensures Closed(w)
  {
    WithLock(f, f.parent[c], 0)
  }

  /** The window with the replaced node already out. */
  ghost function Gap(f: Forest, c: Node): (d: Forest)
    requires Closed(f) && c in f.parent && f.parent[c] != null
    ensures Closed(d) && d.parent == f.parent[c := null] && d.kind == f.kind && d.lock == f.lock[f.parent[c] := 0]
    ensures d.children == f.children[f.parent[c] := Without(f.children[f.parent[c]], c)]
  {
    Detach(Window(f, c), c)
  }

  /** What the replaced node itself needs to leave its parent. */
  ghost function Leaving(f: Forest, c: Node): Outcome
    requires Closed(f) && c in f.parent
  {
    if f.lock[c] != 0 then LockedNode else if !CanBeChild(f.kind[c]) then IncompatibleType else Done
  }

  lemma {:induction false} GapLinked(f: Forest, c: Node)
    requires Linked(f) && c in f.parent && f.parent[c] != null
    ensures Linked(Window(f, c)) && Linked(Gap(f, c))
  {
    DetachKeepsLinks(Window(f, c), c);
  }

  /** `replace_with()` in two moves inside the window. */
  lemma {:induction false} ReplaceInTwoMoves(f: Forest, c: Node, node: Node)
    requires Linked(f) && c in f.parent && node in f.parent && f.parent[c] != null && f.parent[c] != c
    ensures Leaving(f, c) != Done ==> Replace(f, c, node) == (f, Leaving(f, c))
    ensures Leaving(f, c) == Done ==>
      var (g, r) := Reparent(Gap(f, c), node, f.parent[c], Offset(f, c));
      Replace(f, c, node) == (WithLock(g, f.parent[c], f.lock[f.parent[c]]), r)
  {
    var p, w := f.parent[c], Window(f, c);
    assert p in f.parent && c in f.children[p];
    hide Linked, NoDup;
    assert WithLock(w, p, f.lock[p]) == f by { assert f.lock[p := 0][p := f.lock[p]] == f.lock; }
    assert DeleteAt(w, p, Offset(f, c)) == Reparent(w, c, null, -1);
  }

  lemma {:induction false} ReplaceAtKeepsLinks(f: Forest, p: Node, i: int, node: Node)
    requires Linked(f) && p in f.parent && node in f.parent
    ensures Linked(ReplaceAt(f, p, i, node).0)
  {
    if 0 <= i < |f.children[p]| {
      var c := f.children[p][i];
      assert c in f.children[p];
      ReparentKeepsLinks(f, c, null, -1);
      ReparentKeepsLinks(Reparent(f, c, null, -1).0, node, p, i);
    }
  }

  /** The two-way link and every lock counter survive, on success and on failure. */
  lemma {:induction false} ReplaceRestores(f: Forest, c: Node, node: Node?)
    requires Linked(f) && c in f.parent && (node != null ==> node in f.parent)
    ensures var g := Replace(f, c, node).0; Linked(g) && g.kind == f.kind && g.lock == f.lock
  {
    hide NoDup, IndexOf, Without, InsertAt, Reparent;
    var p := f.parent[c];
    if node != null && p != null {
      assert p in f.parent && c in f.children[p];
      var w, i := Window(f, c), IndexOf(f.children[p], c);
      GapLinked(f, c);
      ReplaceAtKeepsLinks(w, p, i, node);
      assert f.lock[p := 0][p := f.lock[p]] == f.lock;
    }
  }

  /** No lock and no type is in the way of the exchange. The lock of the parent does not
      count, not even when the parent itself is the new node. */
  ghost predicate Exchangeable(f: Forest, c: Node, node: Node)
    requires Closed(f) && c in f.parent && node in f.parent && f.parent[c] != null
  {
    var p, q := f.parent[c], f.parent[node];
    && p in f.parent && (q != null ==> q in f.parent)
    && f.lock[c] == 0 && CanBeChild(f.kind[c]) && CanBeChild(f.kind[node]) && AcceptsChildren(f.kind[p])
    && (node == p || f.lock[node] == 0)
    && (q == null || q == p || f.lock[q] == 0)
  }

  /** What the second move sees. */
  ghost predicate IsGap(f: Forest, c: Node, d: Forest)
    requires Closed(f) && c in f.parent && f.parent[c] != null
  {
    && Linked(f) && Linked(d) && f.parent[c] != c && f.parent[c] in f.parent && c in f.children[f.parent[c]]
    && d.parent == f.parent[c := null] && d.kind == f.kind && d.lock == f.lock[f.parent[c] := 0]
    && d.children == f.children[f.parent[c] := Without(f.children[f.parent[c]], c)]
  }

  lemma {:induction false} GapIsGap(f: Forest, c: Node)
    requires Linked(f) && c in f.parent && f.parent[c] != null && f.parent[c] != c
    ensures IsGap(f, c, Gap(f, c))
  {
    GapLinked(f, c);
    assert f.parent[c] in f.parent && c in f.children[f.parent[c]];
  }

  lemma {:induction false} GapRefuses(f: Forest, c: Node, node: Node, d: Forest)
    requires Closed(f) && c in f.parent && f.parent[c] != null && IsGap(f, c, d) && node in f.parent
    ensures Leaving(f, c) == Done ==> (Refusal(d, node, f.parent[c]) == Done <==> Exchangeable(f, c, node))
  {
    var q := d.parent[node];
    assert q != null ==> q in d.parent && node in d.children[q];
  }

  lemma {:induction false} GapAccepts(f: Forest, c: Node, node: Node, d: Forest)
    requires Closed(f) && c in f.parent && f.parent[c] != null && IsGap(f, c, d) && node in f.parent
    requires Leaving(f, c) == Done
    ensures Reparent(d, node, f.parent[c], Offset(f, c)).1 == Done <==>
      && Exchangeable(f, c, node)
      && !(f.parent[node] == f.parent[c] && node != c && Offset(f, c) == |f.children[f.parent[c]]| - 1)
  {
    var p, i := f.parent[c], Offset(f, c);
    GapRefuses(f, c, node, d);
    MoveOutcome(d, node, p, i);
    assert node in d.children[p] <==> d.parent[node] == p;
  }

  /** `replace_with()` succeeds exactly when the nodes are exchangeable and the new node is
      not a sibling of a last child: that one shortens the vector below the offset. */
  lemma {:induction false} ReplaceSucceeds(f: Forest, c: Node, node: Node)
    requires Linked(f) && c in f.parent && node in f.parent && f.parent[c] != null && f.parent[c] != c
    ensures f.parent[c] in f.children
    ensures Replace(f, c, node).1 == Done <==>
      && Exchangeable(f, c, node)
      && !(f.parent[node] == f.parent[c] && node != c && Offset(f, c) == |f.children[f.parent[c]]| - 1)
  {
    var d := Gap(f, c);
    GapIsGap(f, c);
    ReplaceInTwoMoves(f, c, node);
    if Leaving(f, c) == Done {
      GapAccepts(f, c, node, d);
    }
  }

  lemma {:induction false} GapFilled(f: Forest, c: Node, node: Node, d: Forest, n: Node)
    requires Closed(f) && c in f.parent && f.parent[c] != null && IsGap(f, c, d) && node in f.parent && n in f.parent
    requires f.parent[node] != f.parent[c] && Reparent(d, node, f.parent[c], Offset(f, c)).1 == Done
    ensures var (g, p) := (Reparent(d, node, f.parent[c], Offset(f, c)).0, f.parent[c]);
      && n in g.parent && n in g.children
      && g.parent[n] == (if n == node then p else if n == c then null else f.parent[n])
      && g.children[n] == (if n == p then f.children[n][Offset(f, c) := node] else Without(f.children[n], node))
    ensures n != f.parent[node] ==> Without(f.children[n], node) == f.children[n]
  {
    var p, i := f.parent[c], Offset(f, c);
    assert node in f.children[n] <==> f.parent[node] == n;
    assert d.parent[node] == f.parent[node];
    MoveAt(d, node, p, i, n);
    if n == p {
      ExchangeOne(f.children[p], c, node);
    }
  }

  /** Unless it is itself the new node, the parent stays where it is. */
  lemma {:induction false} GapKeepsParent(f: Forest, c: Node, node: Node, d: Forest)
    requires Closed(f) && c in f.parent && f.parent[c] != null && IsGap(f, c, d) && node in f.parent
    requires node != f.parent[c]
    ensures var (g, p) := (Reparent(d, node, f.parent[c], Offset(f, c)).0, f.parent[c]);
      p in g.parent && p in g.children && g.parent[p] == f.parent[p]
  {
    var p, i := f.parent[c], Offset(f, c);
    if !Stays(d, node, p, i) {
      MoveParentAt(d, node, p, i, p);
    }
  }

  lemma {:induction false} ReplaceKeepsParent(f: Forest, c: Node, node: Node)
    requires Linked(f) && c in f.parent && node in f.parent && f.parent[c] != null && f.parent[c] != c
    requires node != f.parent[c]
    ensures var (g, p) := (Replace(f, c, node).0, f.parent[c]);
      p in f.parent && p in g.parent && p in g.children && g.parent[p] == f.parent[p]
  {
    ReplaceInTwoMoves(f, c, node);
    GapIsGap(f, c);
    GapKeepsParent(f, c, node, Gap(f, c));
  }

  /** A node from elsewhere that is refused leaves the vector without the replaced node, if
      that one could leave at all. */
  lemma {:induction false} ReplaceRefused(f: Forest, c: Node, node: Node)
    requires Linked(f) && c in f.parent && node in f.parent && f.parent[c] != null && f.parent[c] != c
    requires f.parent[node] != f.parent[c] && Replace(f, c, node).1 != Done
    ensures f.parent[c] in f.parent && c in f.children[f.parent[c]]
    ensures var (g, p) := (Replace(f, c, node).0, f.parent[c]);
      && p in g.parent && p in g.children && g.parent[p] == f.parent[p]
      && g.children[p] == if Leaving(f, c) == Done then Without(f.children[p], c) else f.children[p]
  {
    ReplaceInTwoMoves(f, c, node);
    GapIsGap(f, c);
    if Leaving(f, c) == Done {
      GapRefuses(f, c, node, Gap(f, c));
      GapAccepts(f, c, node, Gap(f, c));
    }
  }

  /** Replacing by a node from elsewhere, seen from any node `n`: the parent's vector keeps
      its length and all other positions, the new node leaves its old parent, and the
      replaced node is out. */
  lemma {:induction false} ReplaceInPlace(f: Forest, c: Node, node: Node, n: Node)
    requires Linked(f) && c in f.parent && node in f.parent && f.parent[c] != null && f.parent[c] != c
    requires f.parent[node] != f.parent[c] && Replace(f, c, node).1 == Done && n in f.parent
    ensures var (g, p) := (Replace(f, c, node).0, f.parent[c]);
      && n in g.parent && n in g.children
      && g.parent[n] == (if n == node then p else if n == c then null else f.parent[n])
      && g.children[n] == (if n == p then f.children[n][Offset(f, c) := node] else Without(f.children[n], node))
    ensures n != f.parent[node] ==> Without(f.children[n], node) == f.children[n]
  {
    ReplaceInTwoMoves(f, c, node);
    GapIsGap(f, c);
    GapFilled(f, c, node, Gap(f, c), n);
  }

  lemma {:induction false} ExchangeOne(s: seq<Node>, c: Node, node: Node)
    requires c in s && node !in s
    ensures Inserted(Without(s, c), node, IndexOf(s, c)) == s[IndexOf(s, c) := node]
  {
    var r := Without(s, c);
    assert node !in r;
  }

  /** Replacing a node by itself changes nothing. */
  lemma {:induction false} ReplaceBySelf(f: Forest, c: Node)
    requires Linked(f) && c in f.parent && f.parent[c] != null && f.parent[c] != c && Exchangeable(f, c, c)
    ensures Replace(f, c, c) == (f, Done)
  {
    hide NoDup, IndexOf, Without, InsertAt, Replace;
    var p, w, d, i := f.parent[c], Window(f, c), Gap(f, c), Offset(f, c);
    assert p in f.parent && c in f.children[p];
    ReplaceInTwoMoves(f, c, c);
    GapLinked(f, c);
    DetachThenAttach(w, c);
    assert Reparent(d, c, p, i) == (w, Done);
    assert f.lock[p := 0][p := f.lock[p]] == f.lock;
  }

  lemma {:induction false} GapAcyclic(f: Forest, c: Node, node: Node, d: Forest)
    requires Closed(f) && c in f.parent && f.parent[c] != null && IsGap(f, c, d) && node in f.parent
    requires Acyclic(f.parent)
    ensures Acyclic(Reparent(d, node, f.parent[c], Offset(f, c)).0.parent)
      <==> Reparent(d, node, f.parent[c], Offset(f, c)).1 != Done || !Under(d.parent, f.parent[c], node)
  {
    CutAcyclic(f.parent, c);
    AcyclicUnlessMoved(d, node, f.parent[c], Offset(f, c));
  }

  /** An exchange makes a loop exactly when the new node is the parent or one of its ancestors, and no lock
      and no type is in the way. */
  lemma {:induction false} ReplaceAcyclic(f: Forest, c: Node, node: Node)
    requires Linked(f) && Acyclic(f.parent) && c in f.parent && node in f.parent
    ensures Acyclic(Replace(f, c, node).0.parent) <==>
      f.parent[c] == null || !Under(f.parent, f.parent[c], node) || !Exchangeable(f, c, node)
  {
    hide Acyclic, Under, NoDup, IndexOf, Without, Linked, Reparent;
    if f.parent[c] != null {
      NoOwnParent(f, c);
      ExchangeAcyclic(f, c, node);
      ReplaceSucceeds(f, c, node);
      if Under(f.parent, f.parent[c], node) {
        NotItsParent(f, node, f.parent[c]);
      }
    }
  }

  lemma {:induction false} NoOwnParent(f: Forest, c: Node)
    requires Linked(f) && Acyclic(f.parent) && c in f.parent && f.parent[c] != null
    ensures f.parent[c] != c && f.parent[c] in f.parent
  {
    AcyclicMeansNoOwnAncestor(f.parent);
    assert Up(f.parent, c, 1) == f.parent[c] by { assert Up(f.parent, f.parent[c], 0) == f.parent[c]; }
  }

  lemma {:induction false} ExchangeAcyclic(f: Forest, c: Node, node: Node)
    requires Linked(f) && Acyclic(f.parent) && c in f.parent && node in f.parent && f.parent[c] != null && f.parent[c] != c
    ensures Acyclic(Replace(f, c, node).0.parent) <==> Replace(f, c, node).1 != Done || !Under(f.parent, f.parent[c], node)
  {
    hide Acyclic, Under, NoDup, IndexOf, Without, Reparent, Replace;
    ReplaceInTwoMoves(f, c, node);
    if Leaving(f, c) == Done {
      GapIsGap(f, c);
      GapAcyclic(f, c, node, Gap(f, c));
      CutKeepsUnder(f.parent, c, f.parent[c], node);
    }
  }

  lemma {:induction false} CutKeepsUnder(up: ParentMap, c: Node, p: Node, x: Node)
    requires ClosedUp(up) && Acyclic(up) && c in up && up[c] == p
    ensures Under(up[c := null], p, x) <==> Under(up, p, x)
  {
    AcyclicMeansNoOwnAncestor(up);
    UnderAvoids(up, up[c := null], c, p, x);
  }

  /** An ancestor of the parent of `c` is still one when `c` is cut off. */
  lemma {:induction false} UnderAvoids(up: ParentMap, up': ParentMap, c: Node, p: Node, x: Node)
    requires NoOwnAncestor(up) && c in up && up[c] == p && SameBut(up, up', c)
    ensures Under(up', p, x) <==> Under(up, p, x)
  {
    forall k: nat ensures Up(up, p, k) != c {
      assert Up(up, c, k + 1) == Up(up, p, k);
    }
    if Under(up, p, x) {
      var k: nat :| Up(up, p, k) == x;
      UpAvoids(up, up', c, p, k);
    }
    if Under(up', p, x) {
      var k: nat :| Up(up', p, k) == x;
      UpAvoids(up, up', c, p, k);
    }
  }

  lemma {:induction false} UpAvoids(up: ParentMap, up': ParentMap, c: Node, n: Node?, k: nat)
    requires SameBut(up, up', c) && forall j: nat :: Up(up, n, j) != c
    ensures Up(up', n, k) == Up(up, n, k)
    decreases k
  {
    assert Up(up, n, 0) == n;
    if k > 0 && n != null && n in up {
      forall j: nat ensures Up(up, up[n], j) != c {
        assert Up(up, n, j + 1) == Up(up, up[n], j);
      }
      UpAvoids(up, up', c, up[n], k - 1);
    }
  }
}
