/** What `set_parent()` promises: links stay two-way, cycles appear exactly when a node
    is moved below itself, nothing else changes, and every move can be undone. */
module ForestLaws {
  import opened Sequences
  import opened NodeTree

  // ------------------------------------------------------------------
  //  Acyclicity
  // ------------------------------------------------------------------

  /** Every parent is in the map. */
  ghost predicate ClosedUp(up: ParentMap) {
    forall n {:trigger up[n] in up} :: n in up && up[n] != null ==> up[n] in up
  }

  lemma {:induction false} GroundedMonotone(up: ParentMap, n: Node?, k: nat, m: nat)
    requires Grounded(up, n, k) && k <= m
    ensures Grounded(up, n, m)
    decreases k
  {
    if n != null {
      GroundedMonotone(up, up[n], k - 1, m - 1);
    }
  }

  lemma {:induction false} UpAdd(up: ParentMap, n: Node?, j: nat, k: nat)
    requires ClosedUp(up) && (n != null ==> n in up)
    ensures Up(up, n, j + k) == Up(up, Up(up, n, j), k)
    decreases j
  {
    if j > 0 && n != null {
      assert up[n] != null ==> up[n] in up;
      UpAdd(up, up[n], j - 1, k);
    }
  }

  /** A chain that ends visits no node twice. */
  lemma {:induction false} GroundedNoReturn(up: ParentMap, n: Node, k: nat, j: nat)
    requires ClosedUp(up) && n in up && Grounded(up, n, k) && j > 0
    ensures Up(up, n, j) != n
    decreases k
  {
    if Up(up, n, j) == n {
      var q := up[n];
      assert q != null ==> q in up;
      UpAdd(up, n, 1, j - 1);
      assert Up(up, n, 1) == q;
      UpAdd(up, q, j - 1, 1);
      assert Up(up, q, j) == q;
      if q != null {
        GroundedNoReturn(up, q, k - 1, j);
      }
    }
  }

  /** Acyclic in the usual sense: no node is its own proper ancestor. */
  ghost predicate NoOwnAncestor(up: ParentMap) {
    forall n, k: nat :: n in up && k > 0 ==> Up(up, n, k) != n
  }

  ghost function Chain(up: ParentMap, n: Node?, k: nat): (s: set<Node>)
    ensures s <= up.Keys
  {
    if k == 0 || n == null || n !in up then {} else {n} + Chain(up, up[n], k - 1)
  }

  lemma {:induction false} ChainMember(up: ParentMap, n: Node?, k: nat, x: Node)
    requires x in Chain(up, n, k)
    ensures exists j: nat :: j < k && Up(up, n, j) == x
    decreases k
  {
    if x == n {
      assert Up(up, n, 0) == x;
    } else {
      ChainMember(up, up[n], k - 1, x);
      var j: nat :| j < k - 1 && Up(up, up[n], j) == x;
      assert Up(up, n, j + 1) == x;
    }
  }

  /** A chain of `k` steps that does not end has `k` different nodes on it. */
  lemma {:induction false} ChainSize(up: ParentMap, n: Node?, k: nat)
    requires ClosedUp(up) && (n != null ==> n in up) && NoOwnAncestor(up)
    requires !Grounded(up, n, k)
    ensures |Chain(up, n, k)| == k
    decreases k
  {
    if k > 0 {
      var q := up[n];
      assert q != null ==> q in up;
      ChainSize(up, q, k - 1);
      if n in Chain(up, q, k - 1) {
        ChainMember(up, q, k - 1, n);
        var j: nat :| j < k - 1 && Up(up, q, j) == n;
        assert Up(up, n, j + 1) == n;
      }
    }
  }

  lemma {:induction false} SubsetSize<T>(a: set<T>, b: set<T>)
    requires a <= b
    ensures |a| <= |b|
  {
    assert b == a + (b - a);
  }

  lemma {:induction false} AcyclicMeansNoOwnAncestor(up: ParentMap)
    requires ClosedUp(up)
    ensures Acyclic(up) <==> NoOwnAncestor(up)
  {
    if Acyclic(up) {
      var k: nat :| AllGrounded(up, k);
      forall n, j: nat | n in up && j > 0 ensures Up(up, n, j) != n {
        GroundedNoReturn(up, n, k, j);
      }
    }
    if NoOwnAncestor(up) {
      var k := |up.Keys| + 1;
      forall n | n in up ensures Grounded(up, n, k) {
        if !Grounded(up, n, k) {
          ChainSize(up, n, k);
          SubsetSize(Chain(up, n, k), up.Keys);
        }
      }
      assert AllGrounded(up, k);
    }
  }

  // ------------------------------------------------------------------
  //  Detaching and attaching
  // ------------------------------------------------------------------

  lemma {:induction false} DetachKeepsLinks(f: Forest, c: Node)
    requires Linked(f) && c in f.parent
    ensures Linked(Detach(f, c)) && Detach(f, c).parent[c] == null
  {
    var q := f.parent[c];
    if q != null {
      WithoutMembers(f.children[q], c);
    }
  }

  lemma {:induction false} AttachKeepsLinks(f: Forest, c: Node, p: Node, index: nat)
    requires Linked(f) && c in f.parent && p in f.parent && f.parent[c] == null && index <= |f.children[p]|
    ensures Linked(Attach(f, c, p, index))
  {
    InsertAtMembers(f.children[p], index, c);
  }

  lemma {:induction false} MoveKeepsLinks(f: Forest, c: Node, p: Node?, index: int)
    requires Linked(f) && c in f.parent && (p != null ==> p in f.parent)
    ensures Linked(Move(f, c, p, index).0)
  {
    DetachKeepsLinks(f, c);
    var g := Detach(f, c);
    if p != null && index == -1 {
      AttachKeepsLinks(g, c, p, |g.children[p]|);
    } else if p != null && 0 <= index <= |g.children[p]| {
      AttachKeepsLinks(g, c, p, index);
    }
  }

  /** The two-way link survives every call, also one that throws half way. */
  lemma {:induction false} ReparentKeepsLinks(f: Forest, c: Node, p: Node?, index: int)
    requires Linked(f) && c in f.parent && (p != null ==> p in f.parent)
    ensures Linked(Reparent(f, c, p, index).0)
    ensures Reparent(f, c, p, index).1 != InternalError
  {
    MoveKeepsLinks(f, c, p, index);
    RefusalReasons(f, c, p);
  }

  lemma {:induction false} DeleteAtKeepsLinks(f: Forest, p: Node, i: int)
    requires Linked(f) && p in f.parent
    ensures Linked(DeleteAt(f, p, i).0)
  {
    if 0 <= i < |f.children[p]| {
      assert f.children[p][i] in f.children[p];
      ReparentKeepsLinks(f, f.children[p][i], null, -1);
    }
  }

  // ------------------------------------------------------------------
  //  When a move keeps the forest acyclic
  // ------------------------------------------------------------------

  /** The same nodes and, but for `c`, the same parents. */
  ghost predicate SameBut(up: ParentMap, up': ParentMap, c: Node) {
    && up.Keys == up'.Keys
    && forall n {:trigger up'[n]} {:trigger up[n]} :: n in up && n != c ==> up[n] == up'[n]
  }

  /** The way up to `c` does not depend on the parent of `c`. */
  lemma {:induction false} UpToTransfers(up: ParentMap, up': ParentMap, c: Node, n: Node?, j: nat)
    requires SameBut(up, up', c) && Up(up, n, j) == c
    ensures exists i: nat :: i <= j && Up(up', n, i) == c
  {
    if n == c {
      assert Up(up', n, 0) == c;
    } else {
      UpToTransfers(up, up', c, up[n], j - 1);
      var i: nat :| i <= j - 1 && Up(up', up[n], i) == c;
      assert Up(up', n, i + 1) == c;
    }
  }

  lemma {:induction false} UnderTransfers(up: ParentMap, up': ParentMap, c: Node, n: Node?)
    requires SameBut(up, up', c)
    ensures Under(up, n, c) <==> Under(up', n, c)
  {
    if Under(up, n, c) {
      var j: nat :| Up(up, n, j) == c;
      UpToTransfers(up, up', c, n, j);
    }
    if Under(up', n, c) {
      var j: nat :| Up(up', n, j) == c;
      UpToTransfers(up', up, c, n, j);
    }
  }

  lemma {:induction false} UnderParent(up: ParentMap, n: Node, c: Node)
    requires n in up && Under(up, up[n], c)
    ensures Under(up, n, c)
  {
    var j: nat :| Up(up, up[n], j) == c;
    assert Up(up, n, j + 1) == c;
  }

  /** A chain that avoids `c` does not depend on the parent of `c`. */
  lemma {:induction false} GroundedTransfers(up: ParentMap, up': ParentMap, c: Node, n: Node?, k: nat)
    requires SameBut(up, up', c) && Grounded(up, n, k) && !Under(up, n, c)
    ensures Grounded(up', n, k)
    decreases k
  {
    if n != null {
      assert Up(up, n, 0) == n;
      if Under(up, up[n], c) { UnderParent(up, n, c); }
      GroundedTransfers(up, up', c, up[n], k - 1);
    }
  }

  /** Cutting the link above `c` only shortens chains. */
  lemma {:induction false} GroundedCut(up: ParentMap, up': ParentMap, c: Node, n: Node?, k: nat)
    requires SameBut(up, up', c) && c in up' && up'[c] == null && Grounded(up, n, k)
    ensures Grounded(up', n, k)
    decreases k
  {
    if n != null && n != c {
      GroundedCut(up, up', c, up[n], k - 1);
    }
  }

  /** A link above `c` lengthens chains by at most the new parent's own chain. */
  lemma {:induction false} GroundedGraft(up: ParentMap, up': ParentMap, c: Node, n: Node?, k: nat, m: nat)
    requires SameBut(up, up', c) && c in up' && Grounded(up, n, k) && Grounded(up', up'[c], m)
    ensures Grounded(up', n, k + m)
    decreases k
  {
    if n == c {
      GroundedMonotone(up', up'[c], m, k + m - 1);
    } else if n != null {
      GroundedGraft(up, up', c, up[n], k - 1, m);
    }
  }

  lemma {:induction false} CutAcyclic(up: ParentMap, c: Node)
    requires Acyclic(up) && c in up
    ensures Acyclic(up[c := null])
  {
    var up' := up[c := null];
    var k: nat :| AllGrounded(up, k);
    forall n | n in up' ensures Grounded(up', n, k) {
      GroundedCut(up, up', c, n, k);
    }
    assert AllGrounded(up', k);
  }

  lemma {:induction false} GraftAcyclic(up: ParentMap, c: Node, p: Node)
    requires ClosedUp(up) && Acyclic(up) && c in up && p in up && up[c] == null
    ensures Acyclic(up[c := p]) <==> !Under(up, p, c)
  {
    var up' := up[c := p];
    if Under(up, p, c) {
      UnderTransfers(up, up', c, p);
      var j: nat :| Up(up', p, j) == c;
      assert Up(up', c, j + 1) == c;
      AcyclicMeansNoOwnAncestor(up');
    } else {
      var k: nat :| AllGrounded(up, k);
      GroundedTransfers(up, up', c, p, k);
      forall n | n in up' ensures Grounded(up', n, k + k) {
        GroundedGraft(up, up', c, n, k, k);
      }
      assert AllGrounded(up', k + k);
    }
  }

  lemma {:induction false} MoveAcyclic(f: Forest, c: Node, p: Node?, index: int)
    requires Linked(f) && Acyclic(f.parent) && c in f.parent && (p != null ==> p in f.parent)
    ensures var (g, r) := Move(f, c, p, index);
      Acyclic(g.parent) <==> !(r == Done && p != null && Under(f.parent, p, c))
  {
    var d := Detach(f, c);
    if f.parent[c] != null {
      CutAcyclic(f.parent, c);
    }
    if p != null {
      UnderTransfers(f.parent, d.parent, c, p);
      GraftAcyclic(d.parent, c, p);
    }
  }

  /** The call ends before it moves anything: it appends where the child already is, or
      something is in the way. */
  ghost predicate Stays(f: Forest, c: Node, p: Node?, index: int)
    requires Closed(f) && c in f.parent && (p != null ==> p in f.parent)
  {
    Refusal(f, c, p) != Done || (p == f.parent[c] && index == -1)
  }

  lemma {:induction false} AcyclicUnlessMoved(f: Forest, c: Node, p: Node?, index: int)
    requires Linked(f) && Acyclic(f.parent) && c in f.parent && (p != null ==> p in f.parent)
    ensures var (g, r) := Reparent(f, c, p, index);
      Acyclic(g.parent) <==> Stays(f, c, p, index) || r != Done || p == null || !Under(f.parent, p, c)
  {
    if !Stays(f, c, p, index) {
      MoveAcyclic(f, c, p, index);
    }
  }

  /** A lock or a type refuses to hang `c` below `p`. */
  ghost predicate InTheWay(f: Forest, c: Node, p: Node)
    requires Closed(f) && c in f.parent && p in f.parent
  {
    var q := f.parent[c];
    || f.lock[c] != 0 || f.lock[p] != 0 || (q != null && q in f.lock && f.lock[q] != 0)
    || !AcceptsChildren(f.kind[p]) || !CanBeChild(f.kind[c])
  }

  /** A call hangs a node below itself exactly when the new parent is in its own subtree, no lock and no type
      is in the way, and the index is in the vector: `set_parent()` tests everything but the first. */
  lemma {:induction false} ReparentAcyclic(f: Forest, c: Node, p: Node?, index: int)
    requires Linked(f) && Acyclic(f.parent) && c in f.parent && (p != null ==> p in f.parent)
    ensures Acyclic(Reparent(f, c, p, index).0.parent) <==>
      p == null || !Under(f.parent, p, c) || InTheWay(f, c, p) || !(-1 <= index <= |f.children[p]|)
  {
    hide Acyclic, Under, NoDup;
    AcyclicUnlessMoved(f, c, p, index);
    if p != null && Under(f.parent, p, c) {
      NotItsParent(f, c, p);
      ReparentOutcomes(f, c, p, index);
      assert f.parent[c] != null ==> f.parent[c] in f.parent && c in f.children[f.parent[c]];
    }
  }

  lemma {:induction false} NotItsParent(f: Forest, c: Node, p: Node)
    requires Linked(f) && Acyclic(f.parent) && c in f.parent && p in f.parent && Under(f.parent, p, c)
    ensures f.parent[c] != p
  {
    AcyclicMeansNoOwnAncestor(f.parent);
    if f.parent[c] == p {
      var k: nat :| Up(f.parent, p, k) == c;
      assert Up(f.parent, c, k + 1) == c;
    }
  }

  /** A node `r` and its only child `c`, with nothing locked. */
  ghost function Pair(r: Node, c: Node): Forest {
    Forest(map[r := Branch(0), c := Branch(0)], map[r := null, c := r], map[r := [c], c := []], map[r := 0, c := 0])
  }

  /** The shortest way to a loop: a node appended to its own child. */
  lemma {:induction false} RootBelowChild(r: Node, c: Node)
    requires r != c
    ensures var f := Pair(r, c);
      && Linked(f) && Acyclic(f.parent) && Reparent(f, r, c, -1).1 == Done
      && var g := Reparent(f, r, c, -1).0; g.parent[r] == c && g.parent[c] == r && !Acyclic(g.parent)
  {
    var f := Pair(r, c);
    assert Grounded(f.parent, r, 2) && Grounded(f.parent, c, 2);
    assert AllGrounded(f.parent, 2);
    assert Linked(f);
    assert Up(f.parent, c, 1) == r by { assert Up(f.parent, r, 0) == r; }
    assert Under(f.parent, c, r);
    ReparentAcyclic(f, r, c, -1);
  }

  // ------------------------------------------------------------------
  //  What a call changes, and how to undo it
  // ------------------------------------------------------------------

  /** The children after `c` was inserted at `index`, counted in the vector that no
      longer holds `c`; -1 appends. */
  function Inserted(s: seq<Node>, c: Node, index: int): seq<Node> {
    var rest := Without(s, c);
    if 0 <= index <= |rest| then InsertAt(rest, index, c) else rest + [c]
  }

  /** A node that is no child of `p` leaves the vector of `p` alone. */
  lemma {:induction false} DetachAt(f: Forest, c: Node, p: Node)
    requires Linked(f) && c in f.parent && p in f.parent
    ensures Detach(f, c).children[p] == Without(f.children[p], c)
  {
    assert c in f.children[p] <==> f.parent[c] == p;
  }

  /** How a move ends: the index counts in the vector that no longer holds the child. */
  lemma {:induction false} MoveOutcome(f: Forest, c: Node, p: Node?, index: int)
    requires Linked(f) && c in f.parent && (p != null ==> p in f.parent)
    ensures var (g, r) := Move(f, c, p, index);
      && g.kind == f.kind && g.lock == f.lock && g.parent.Keys == f.parent.Keys
      && (r == Done || r == OutOfRange)
      && (r == OutOfRange <==> p != null && index != -1 && !(0 <= index <= |Without(f.children[p], c)|))
  {
    if p != null {
      DetachAt(f, c, p);
    }
  }

  lemma {:induction false} MoveParentAt(f: Forest, c: Node, p: Node?, index: int, n: Node)
    requires Linked(f) && c in f.parent && (p != null ==> p in f.parent) && n in f.parent
    ensures var (g, r) := Move(f, c, p, index);
      n in g.parent && g.parent[n] == if n != c then f.parent[n] else if r == Done then p else null
  {
  }

  lemma {:induction false} MoveChildrenAt(f: Forest, c: Node, p: Node?, index: int, n: Node)
    requires Linked(f) && c in f.parent && (p != null ==> p in f.parent) && n in f.parent
    ensures var (g, r) := Move(f, c, p, index);
      n in g.children && g.children[n] ==
        if n == p && r == Done then Inserted(f.children[n], c, index) else Without(f.children[n], c)
  {
    DetachAt(f, c, n);
    var rest := Without(f.children[n], c);
    assert InsertAt(rest, |rest|, c) == rest + [c];
  }

  /** What a move does to any node `n`: only the moved node gets another parent, only its
      old parent loses it and only the new one gains it. A bad index still detaches. */
  lemma {:induction false} MoveAt(f: Forest, c: Node, p: Node?, index: int, n: Node)
    requires Linked(f) && c in f.parent && (p != null ==> p in f.parent) && n in f.parent
    ensures var (g, r) := Move(f, c, p, index);
      && n in g.parent && n in g.children
      && g.parent[n] == (if n != c then f.parent[n] else if r == Done then p else null)
      && g.children[n] == (if n == p && r == Done then Inserted(f.children[n], c, index) else Without(f.children[n], c))
    ensures n != f.parent[c] ==> Without(f.children[n], c) == f.children[n]
  {
    MoveParentAt(f, c, p, index, n);
    MoveChildrenAt(f, c, p, index, n);
    assert c in f.children[n] <==> f.parent[c] == n;
  }

  /** On a linked forest a refusal is a lock or a type, never the internal error. */
  lemma {:induction false} RefusalReasons(f: Forest, c: Node, p: Node?)
    requires Linked(f) && c in f.parent && (p != null ==> p in f.parent)
    ensures var (r, q) := (Refusal(f, c, p), f.parent[c]);
      && (r == LockedNode <==> f.lock[c] != 0 || (p != null && f.lock[p] != 0) || (q != null && f.lock[q] != 0))
      && (r == Done || r == LockedNode || r == IncompatibleType)
  {
    var q := f.parent[c];
    assert q != null ==> q in f.parent && c in f.children[q];
  }

  /** Literals, names, visibilities and other words: nothing can hang below them. */
  predicate NeverHolds(t: NodeType) {
    || t.Identifier? || t.String? || t.Int64? || t.Float64? || t.Goto? || t.True? || t.False? || t.Abstract? || t.Final? || t.Inline?
    || t.Native? || t.Private? || t.Protected? || t.Public? || t.Static? || t.Transient? || t.Volatile? || t.Leaf? || t.Punctuation?
  }

  /** Separators, brackets, the end of the file and the root hang below nothing. */
  predicate NeverHangs(t: NodeType) {
    t.Root? || t.Punctuation?
  }

  lemma {:induction false} WhichNever(t: NodeType)
    ensures NeverHolds(t) <==> !AcceptsChildren(t)
    ensures NeverHangs(t) <==> !CanBeChild(t)
  {
  }

  /** Every way a call can end, what each leaves behind, and when it happens. */
  lemma {:induction false} ReparentOutcomes(f: Forest, c: Node, p: Node?, index: int)
    requires Linked(f) && c in f.parent && (p != null ==> p in f.parent)
    ensures var (g, r) := Reparent(f, c, p, index); var q := f.parent[c];
      && (Stays(f, c, p, index) ==> g == f)
      && (!Stays(f, c, p, index) ==> (g, r) == Move(f, c, p, index))
      && (r == LockedNode <==> f.lock[c] != 0 || (p != null && f.lock[p] != 0) || (q != null && f.lock[q] != 0))
      && (r == OutOfRange <==> !Stays(f, c, p, index) && p != null && index != -1
                               && !(0 <= index <= |f.children[p]| - (if p == q then 1 else 0)))
      && (r == OutOfRange ==> g == Detach(f, c))
      && (r == IncompatibleType <==>
            r != LockedNode && !(p == q && index == -1) && ((p != null && NeverHolds(f.kind[p])) || NeverHangs(f.kind[c])))
      && (r == Done || r == LockedNode || r == IncompatibleType || r == OutOfRange)
  {
    RefusalReasons(f, c, p);
    MoveOutcome(f, c, p, index);
    WhichNever(f.kind[c]);
    if p != null {
      WhichNever(f.kind[p]);
    }
    if p != null {
      assert c in f.children[p] <==> f.parent[c] == p;
    }
  }

  lemma {:induction false} PutBack<K, V>(m: map<K, V>, k: K, v: V)
    requires k in m
    ensures m[k := v][k := m[k]] == m
  {
  }

  /** Attaching a detached node and detaching it again, or the other way round,
      gives back the forest. */
  lemma {:induction false} AttachThenDetach(f: Forest, c: Node, p: Node, at: nat)
    requires Linked(f) && c in f.parent && p in f.parent && f.parent[c] == null && at <= |f.children[p]|
    ensures var g := Attach(f, c, p, at);
      Closed(g) && Detach(g, c) == f && IndexOf(g.children[p], c) == at && c in g.children[p]
  {
    hide NoDup, IndexOf, Without, InsertAt;
    var s, g := f.children[p], Attach(f, c, p, at);
    assert c !in s;
    InsertThenWithout(s, at, c);
    PutBack(f.children, p, InsertAt(s, at, c));
    PutBack(f.parent, c, p);
  }

  lemma {:induction false} DetachThenAttach(f: Forest, c: Node)
    requires Linked(f) && c in f.parent && f.parent[c] != null
    ensures var q := f.parent[c];
      IndexOf(f.children[q], c) <= |Detach(f, c).children[q]|
      && Attach(Detach(f, c), c, q, IndexOf(f.children[q], c)) == f
  {
    var q := f.parent[c];
    WithoutThenInsert(f.children[q], c);
    var h := Attach(Detach(f, c), c, q, IndexOf(f.children[q], c));
    assert h.parent == f.parent;
    assert h.children == f.children;
  }

  lemma {:induction false} MoveThenDetach(f: Forest, c: Node, p: Node?, index: int)
    requires Linked(f) && c in f.parent && (p != null ==> p in f.parent) && Move(f, c, p, index).1 == Done
    ensures Closed(Move(f, c, p, index).0) && Detach(Move(f, c, p, index).0, c) == Detach(f, c)
  {
    DetachKeepsLinks(f, c);
    var d := Detach(f, c);
    if p != null {
      AttachThenDetach(d, c, p, if index == -1 then |d.children[p]| else index);
    }
  }

  /** The position to go back to. */
  ghost function Offset(f: Forest, c: Node): int
    requires Closed(f) && c in f.parent
  {
    if f.parent[c] == null then -1 else IndexOf(f.children[f.parent[c]], c)
  }

  /** Moving back undoes a move, unless the old parent's type no longer takes children. */
  lemma {:induction false} ReparentUndo(f: Forest, c: Node, p: Node?, index: int)
    requires Linked(f) && c in f.parent && (p != null ==> p in f.parent)
    requires Reparent(f, c, p, index).1 == Done && !Stays(f, c, p, index)
    requires f.parent[c] != null ==> AcceptsChildren(f.kind[f.parent[c]])
    ensures var g := Reparent(f, c, p, index).0;
      Closed(g) && g.parent.Keys == f.parent.Keys && Reparent(g, c, f.parent[c], Offset(f, c)) == (f, Done)
  {
    hide NoDup, IndexOf, Without, InsertAt;
    var g, q, back := Move(f, c, p, index).0, f.parent[c], Offset(f, c);
    MoveKeepsLinks(f, c, p, index);
    MoveOutcome(f, c, p, index);
    MoveAt(f, c, p, index, c);
    MoveThenDetach(f, c, p, index);
    if q != null {
      DetachThenAttach(f, c);
    }
    assert Move(g, c, q, back) == (f, Done);
  }
}
