/** The class a node is a member of. */
module ClassMember {
  import opened Sequences
  import opened NodeTree
  import opened ClassHierarchy

  predicate IsClass(t: NodeType) {
    t.Class? || t.Interface?
  }

  /** Where the search gives up. */
  predicate IsBoundary(t: NodeType) {
    t.Package? || t.Program? || t.Root?
  }

  /** Going up from `n`, the node `j` steps above is the first one of interest. */
  ghost predicate FirstAt(f: Forest, n: Node?, j: nat) {
    forall i :: 0 <= i < j ==>
      var x := Up(f.parent, n, i); x != null && x in f.kind && !IsClass(f.kind[x]) && !IsBoundary(f.kind[x])
  }

  lemma {:induction false} UpNext(up: ParentMap, n: Node?, j: nat)
    requires Up(up, n, j) != null && Up(up, n, j) in up
    ensures Up(up, n, j + 1) == up[Up(up, n, j)]
  {
    if j > 0 && n != null && n in up {
      UpNext(up, up[n], j - 1);
    }
  }

  /** The nearest class or interface at or above a node, unless a package, the program or the
      root is nearer. */
  ghost predicate IsClassOf(f: Forest, n: Node?, r: Node?) {
    exists j: nat {:trigger FirstAt(f, n, j)} :: FirstAt(f, n, j) && ClassAt(f, Up(f.parent, n, j), r)
  }

  ghost predicate ClassAt(f: Forest, x: Node?, r: Node?) {
    if r == null then x == null || (x in f.kind && IsBoundary(f.kind[x]) && !IsClass(f.kind[x]))
    else x == r && r in f.kind && IsClass(f.kind[r])
  }

  /** There is only one. */
  lemma {:induction false} OneClass(f: Forest, n: Node?, q: Node?, r: Node?)
    requires IsClassOf(f, n, q) && IsClassOf(f, n, r)
    ensures q == r
  {
    var i: nat :| FirstAt(f, n, i) && ClassAt(f, Up(f.parent, n, i), q);
    var j: nat :| FirstAt(f, n, j) && ClassAt(f, Up(f.parent, n, j), r);
    assert i < j ==> Up(f.parent, n, i) != null;
    assert j < i ==> Up(f.parent, n, j) != null;
  }

  /** Going up, the first class, interface, package, program or root there is. */
  ghost predicate Ends(f: Forest, x: Node?, classes: bool) {
    x != null && x in f.kind
    && (f.kind[x] in {NodeTree.Class, NodeTree.Interface} || (!classes && f.kind[x] in {NodeTree.Package, NodeTree.Program, NodeTree.Root}))
  }

  ghost predicate Passed(f: Forest, n: Node?, j: nat) {
    forall i: nat :: i < j ==> Up(f.parent, n, i) != null && Up(f.parent, n, i) in f.kind && !Ends(f, Up(f.parent, n, i), false)
  }

  /** So a class is that of `n` exactly when it is the first of these. */
  lemma {:induction false} ClassIsNearest(f: Forest, n: Node?, r: Node)
    ensures IsClassOf(f, n, r) <==> exists j: nat :: Up(f.parent, n, j) == r && Ends(f, r, true) && Passed(f, n, j)
  {
    forall j: nat ensures FirstAt(f, n, j) <==> Passed(f, n, j) {
      forall i: nat | i < j ensures var x := Up(f.parent, n, i);
        (x != null && x in f.kind && !IsClass(f.kind[x]) && !IsBoundary(f.kind[x])) <==> (x != null && x in f.kind && !Ends(f, x, false))
      {
        EndsWhere(f, Up(f.parent, n, i));
      }
    }
    EndsWhere(f, r);
  }

  lemma {:induction false} EndsWhere(f: Forest, x: Node?)
    ensures x != null && x in f.kind ==> (Ends(f, x, true) <==> IsClass(f.kind[x]))
    ensures x != null && x in f.kind ==> (Ends(f, x, false) <==> IsClass(f.kind[x]) || IsBoundary(f.kind[x]))
  {
    if x == null || x !in f.kind {
      return;
    }
    var t := f.kind[x];
    assert t in {NodeTree.Class, NodeTree.Interface} <==> t.Class? || t.Interface?;
    assert t in {NodeTree.Package, NodeTree.Program, NodeTree.Root} <==> t.Package? || t.Program? || t.Root?;
  }

  method ClassOfMember(node: Node?, ghost S: set<Node>, ghost k: nat) returns (r: Node?)
    requires NodeTree.Closed(Snapshot(S)) && (node != null ==> node in S) && Grounded(Snapshot(S).parent, node, k)
    ensures IsClassOf(Snapshot(S), node, r) && (r != null ==> r in S && IsClass(r.kind))
  {
    ghost var f, left := Snapshot(S), k;
    var n := node;
    ghost var j := 0;
    while n != null
      invariant n != null ==> n in S
      invariant Up(f.parent, node, j) == n && FirstAt(f, node, j) && Grounded(f.parent, n, left)
      decreases left
    {
      if IsClass(n.kind) {
        return n;
      }
      if IsBoundary(n.kind) {
        return null;
      }
      UpNext(f.parent, node, j);
      assert f.parent[n] == n.parent;
      n := n.parent;
      j := j + 1;
      left := left - 1;
    }
    r := null;
  }

  /** The node is in the class `c`; `cls` tells the classes and interfaces apart. */
  ghost predicate InClass(f: Forest, cls: map<Node, Cls>, n: Node?, c: Cls) {
    exists j: nat {:trigger FirstAt(f, n, j)} ::
      FirstAt(f, n, j) && var x := Up(f.parent, n, j); x != null && x in f.kind && IsClass(f.kind[x]) && x in cls && cls[x] == c
  }

  /** Both nodes are in classes, and the class of the first derives from the class of the second. */
  ghost predicate ObjectsDerive(f: Forest, h: Hierarchy, cls: map<Node, Cls>, derived: Node?, super: Node?) {
    exists p, q :: InClass(f, cls, super, p) && InClass(f, cls, derived, q) && Derives(h, q, p)
  }

  lemma {:induction false} ClassAbove(f: Forest, cls: map<Node, Cls>, n: Node?, c: Cls) returns (r: Node?)
    requires InClass(f, cls, n, c)
    ensures IsClassOf(f, n, r) && r != null && r in cls && cls[r] == c
  {
    var j: nat :| FirstAt(f, n, j) && var x := Up(f.parent, n, j); x != null && x in f.kind && IsClass(f.kind[x]) && x in cls && cls[x] == c;
    r := Up(f.parent, n, j);
  }

  lemma {:induction false} InOneClass(f: Forest, cls: map<Node, Cls>, n: Node?, c: Cls, d: Cls)
    requires InClass(f, cls, n, c) && InClass(f, cls, n, d)
    ensures c == d
  {
    var q := ClassAbove(f, cls, n, c);
    var r := ClassAbove(f, cls, n, d);
    OneClass(f, n, q, r);
  }

  lemma {:induction false} ClassIs(f: Forest, cls: map<Node, Cls>, n: Node?, r: Node?)
    requires IsClassOf(f, n, r) && (r != null ==> r in cls)
    ensures r != null ==> InClass(f, cls, n, cls[r])
    ensures r == null ==> forall c :: !InClass(f, cls, n, c)
  {
    forall c | InClass(f, cls, n, c) ensures r != null {
      var q := ClassAbove(f, cls, n, c);
      OneClass(f, n, q, r);
    }
    var i: nat :| FirstAt(f, n, i) && ClassAt(f, Up(f.parent, n, i), r);
  }

  /** Whether the class of one node derives from the class of another. */
  method AreObjectsDerivedFromOneAnother(h: Hierarchy, cls: map<Node, Cls>, derived: Node?, super: Node?, ghost S: set<Node>, ghost k: nat)
    returns (r: bool, theSuper: Node?)
    requires NodeTree.Closed(Snapshot(S)) && (derived != null ==> derived in S) && (super != null ==> super in S)
    requires Grounded(Snapshot(S).parent, derived, k) && Grounded(Snapshot(S).parent, super, k)
    requires Sound(h, true) && AllClasses(h, cls, S)
    ensures IsClassOf(Snapshot(S), super, theSuper)
    ensures r <==> ObjectsDerive(Snapshot(S), h, cls, derived, super)
  {
    hide Sound, Derives, Grounded, NodeTree.Closed, IsClassOf, InClass;
    ghost var f := Snapshot(S);
    theSuper := ClassOfMember(super, S, k);
    ClassIs(f, cls, super, theSuper);
    if theSuper == null {
      return false, theSuper;
    }
    var theDerived := ClassOfMember(derived, S, k);
    ClassIs(f, cls, derived, theDerived);
    if theDerived == null {
      return false, theSuper;
    }
    r := IsDerivedFrom(h, cls[theDerived], cls[theSuper]);
    OnlyTheseClasses(f, h, cls, derived, super, cls[theDerived], cls[theSuper]);
  }

  lemma {:induction false} OnlyTheseClasses(f: Forest, h: Hierarchy, cls: map<Node, Cls>, derived: Node?, super: Node?, q: Cls, p: Cls)
    requires InClass(f, cls, derived, q) && InClass(f, cls, super, p)
    ensures ObjectsDerive(f, h, cls, derived, super) <==> Derives(h, q, p)
  {
    hide InClass, Derives;
    forall p', q' | InClass(f, cls, super, p') && InClass(f, cls, derived, q') ensures p' == p && q' == q {
      InOneClass(f, cls, super, p, p');
      InOneClass(f, cls, derived, q, q');
    }
  }

  /** Every class and interface is one of the hierarchy. */
  ghost predicate AllClasses(h: Hierarchy, cls: map<Node, Cls>, S: set<Node>)
    reads S`kind
  {
    forall n {:trigger n in cls} :: n in S && IsClass(n.kind) ==> n in cls && cls[n] in h
  }
}
