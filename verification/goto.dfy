/** Labels and goto: which labels a function has, and where a goto leaves. */
module GotoTargets {
  import opened Text
  import opened NodeTree
  import opened ForestLaws
  import opened CleanTree

  // ------------------------------------------------------------------
  //  The labels of a function
  // ------------------------------------------------------------------

  /** Declarations and expressions are not searched for labels, nor are the labels. */
  predicate IsSearched(t: NodeType) {
    !(t.Label? || t.Function? || t.Class? || t.Interface? || t.Package? || t.Program? || t.Expression?)
  }

  type Names = map<Node, Text>

  ghost function NamesOf(S: set<Node>): Names
    reads S`str
  {
    map n | n in S :: n.str
  }

  datatype Registered = Registered(labels: map<Text, Node>, outcome: Outcome)

  /** `find_label()` then `add_label()` on a function: a name that is taken keeps its label. */
  ghost function Register(kind: NodeType, names: Names, labels: map<Text, Node>, x: Node): Registered {
    if x !in names || names[x] in labels then Registered(labels, Done)
    else if kind != Function then Registered(labels, IncompatibleType)
    else if names[x] == [] then Registered(labels, InvalidData)
    else Registered(labels[names[x] := x], Done)
  }

  /** The labels found at or below `n`, in the order of the tree. */
  ghost function RegisterUnder(f: Forest, kind: NodeType, names: Names, labels: map<Text, Node>, n: Node, h: nat): Registered
    requires Closed(f) && n in f.parent
    decreases h, 0
  {
    if f.kind[n] == Label then Register(kind, names, labels, n)
    else if !IsSearched(f.kind[n]) || h == 0 then Registered(labels, Done)
    else RegisterAll(f, kind, names, labels, n, |f.children[n]|, h - 1)
  }

  /** Those below the first `i` children of `n`. */
  ghost function RegisterAll(f: Forest, kind: NodeType, names: Names, labels: map<Text, Node>, n: Node, i: nat, h: nat): Registered
    requires Closed(f) && n in f.parent && i <= |f.children[n]|
    decreases h, i + 1
  {
    if i == 0 then Registered(labels, Done)
    else
      var r := RegisterAll(f, kind, names, labels, n, i - 1, h);
      assert f.children[n][i - 1] in f.children[n];
      if r.outcome != Done then r else RegisterUnder(f, kind, names, r.labels, f.children[n][i - 1], h)
  }

  method AddLabel(owner: Node, target: Node) returns (r: Outcome)
    modifies owner`labels
    ensures r == if target.kind != Label || owner.kind != Function then IncompatibleType
                 else if target.str == [] then InvalidData
                 else if target.str in old(owner.labels) then InternalError
                 else Done
    ensures owner.labels == if r == Done then old(owner.labels)[target.str := target] else old(owner.labels)
  {
    if target.kind != Label || owner.kind != Function {
      return IncompatibleType;
    }
    if target.str == [] {
      return InvalidData;
    }
    if target.str in owner.labels {
      return InternalError;  // already defined
    }
    owner.labels := owner.labels[target.str := target];
    r := Done;
  }

  lemma {:induction false} HeightPositive(f: Forest, n: Node, h: nat)
    requires n in f.parent && HeightBelow(f.parent, n, h)
    ensures h > 0
  {
    assert Up(f.parent, n, 0) == n;
  }

  /** An exception ends the search. */
  lemma {:induction false} StopsEarly(f: Forest, kind: NodeType, names: Names, labels: map<Text, Node>, n: Node, i: nat, j: nat, h: nat)
    requires Closed(f) && n in f.parent && i <= j <= |f.children[n]|
    requires RegisterAll(f, kind, names, labels, n, i, h).outcome != Done
    ensures RegisterAll(f, kind, names, labels, n, j, h) == RegisterAll(f, kind, names, labels, n, i, h)
    decreases j
  {
    if i < j {
      StopsEarly(f, kind, names, labels, n, i, j - 1, h);
    }
  }

  lemma {:induction false} UnderStep(f: Forest, kind: NodeType, names: Names, labels: map<Text, Node>, n: Node, h: nat)
    requires Closed(f) && n in f.parent && h > 0
    ensures RegisterUnder(f, kind, names, labels, n, h) ==
      if f.kind[n] == Label then Register(kind, names, labels, n)
      else if !IsSearched(f.kind[n]) then Registered(labels, Done)
      else RegisterAll(f, kind, names, labels, n, |f.children[n]|, h - 1)
    ensures RegisterAll(f, kind, names, labels, n, 0, h - 1) == Registered(labels, Done)
  {
  }

  lemma {:induction false} AllStep(f: Forest, kind: NodeType, names: Names, labels: map<Text, Node>, n: Node, i: nat, h: nat)
    requires Closed(f) && n in f.parent && i < |f.children[n]|
    ensures f.children[n][i] in f.parent
    ensures var r := RegisterAll(f, kind, names, labels, n, i, h);
      RegisterAll(f, kind, names, labels, n, i + 1, h)
      == if r.outcome != Done then r else RegisterUnder(f, kind, names, r.labels, f.children[n][i], h)
  {
    assert f.children[n][i] in f.children[n];
  }

  lemma {:induction false} SnapshotAt(S: set<Node>, n: Node)
    requires n in S
    ensures var f := Snapshot(S);
      f.parent.Keys == f.kind.Keys == f.children.Keys == S && f.kind[n] == n.kind && f.children[n] == n.children
    ensures n in NamesOf(S) && NamesOf(S)[n] == n.str
  {
  }

  lemma {:induction false} LinkedIsClosed(f: Forest)
    requires Linked(f)
    ensures Closed(f) && f.parent.Keys == f.children.Keys == f.kind.Keys
  {
  }

  lemma {:induction false} ChildIsIn(f: Forest, n: Node, i: nat)
    requires Closed(f) && n in f.parent && n in f.children && i < |f.children[n]|
    ensures f.children[n][i] in f.children[n] && f.children[n][i] in f.parent
  {
  }

  lemma {:induction false} OneLabel(kind: NodeType, names: Names, labels: map<Text, Node>, x: Node)
    requires x in names
    ensures var s := names[x];
      Register(kind, names, labels, x) ==
      if s in labels then Registered(labels, Done)
      else if kind != Function then Registered(labels, IncompatibleType)
      else if s == [] then Registered(labels, InvalidData)
      else Registered(labels[s := x], Done)
  {
  }

  lemma {:induction false} AllNamed(S: set<Node>)
    ensures NamesOf(S).Keys == Snapshot(S).parent.Keys == S
  {
  }

  method FindLabels(owner: Node, node: Node, ghost S: set<Node>, ghost h: nat) returns (r: Outcome)
    requires owner in S && node in S && Linked(Snapshot(S)) && HeightBelow(Snapshot(S).parent, node, h)
    modifies owner`labels
    ensures Closed(Snapshot(S)) && Registered(owner.labels, r)
      == RegisterUnder(Snapshot(S), owner.kind, NamesOf(S), old(owner.labels), node, h)
    ensures r == Done <==> Registrable(Snapshot(S), owner.kind, NamesOf(S), old(owner.labels), node)
    decreases h
  {
    hide HeightBelow, Linked, Closed, Register, RegisterUnder, RegisterAll, Snapshot, NamesOf, Registrable;
    ghost var f, names := Snapshot(S), NamesOf(S);
    LinkedIsClosed(f);
    ghost var kind, before := owner.kind, owner.labels;
    SnapshotAt(S, node);
    OneLabel(kind, names, before, node);
    HeightPositive(f, node, h);
    UnderStep(f, kind, names, before, node, h);
    AllNamed(S);
    SearchEnds(f, kind, names, before, node, h);
    if node.kind == Label {
      if node.str in owner.labels {
        return Done;
      }
      r := AddLabel(owner, node);
      return;
    }
    if !IsSearched(node.kind) {
      return Done;
    }
    r := Done;
    var idx := 0;
    while idx < |node.children|
      invariant 0 <= idx <= |node.children| && r == Done
      invariant Registered(owner.labels, r) == RegisterAll(f, kind, names, before, node, idx, h - 1)
    {
      var child := node.children[idx];
      ChildIsIn(f, node, idx);
      AllStep(f, kind, names, before, node, idx, h - 1);
      ChildHeight(f, node, child, h);
      r := FindLabels(owner, child, S, h - 1);
      idx := idx + 1;
      if r != Done {
        StopsEarly(f, kind, names, before, node, idx, |node.children|, h - 1);
        return;
      }
    }
  }

  // ------------------------------------------------------------------
  //  Which labels those are
  // ------------------------------------------------------------------

  /** From `x` the tree leads up to `root` in `k` steps, through nodes that are searched. */
  ghost predicate SearchedAt(f: Forest, root: Node, x: Node?, k: nat) {
    if k == 0 then x == root
    else
      && x != null && x in f.parent && f.parent[x] != null && f.parent[x] in f.kind && IsSearched(f.kind[f.parent[x]])
      && SearchedAt(f, root, f.parent[x], k - 1)
  }

  /** A node whose children are looked at. */
  ghost predicate GoesOn(f: Forest, y: Node?) {
    y != null && y in f.kind && f.kind[y] !in {Label, Function, Class, Interface, Package, Program} && !f.kind[y].Expression?
  }

  ghost predicate AllGoOn(f: Forest, x: Node?, k: nat) {
    forall i :: 0 < i <= k ==> GoesOn(f, Up(f.parent, x, i))
  }

  lemma {:induction false} GoOnFromParent(f: Forest, x: Node, k: nat)
    requires x in f.parent && k > 0
    ensures AllGoOn(f, x, k) <==> GoesOn(f, f.parent[x]) && AllGoOn(f, f.parent[x], k - 1)
    ensures Up(f.parent, x, k) == Up(f.parent, f.parent[x], k - 1)
  {
    hide GoesOn;
    var p := f.parent[x];
    forall i: nat ensures Up(f.parent, x, i + 1) == Up(f.parent, p, i) {
    }
    assert Up(f.parent, x, 1) == p by { assert Up(f.parent, p, 0) == p; }
    if AllGoOn(f, x, k) {
      forall i | 0 < i <= k - 1 ensures GoesOn(f, Up(f.parent, p, i)) {
        assert Up(f.parent, x, i + 1) == Up(f.parent, p, i);
      }
    }
    if GoesOn(f, p) && AllGoOn(f, p, k - 1) {
      forall i | 0 < i <= k ensures GoesOn(f, Up(f.parent, x, i)) {
        assert i > 1 ==> Up(f.parent, x, i) == Up(f.parent, p, i - 1);
      }
    }
  }

  /** The search comes to the nodes from which one goes up to `root` past no label, declaration or expression. */
  lemma {:induction false} SearchedIsBelow(f: Forest, root: Node, x: Node, k: nat)
    requires Closed(f) && x in f.parent
    ensures SearchedAt(f, root, x, k) <==> Up(f.parent, x, k) == root && AllGoOn(f, x, k)
    decreases k
  {
    hide AllGoOn;
    if k == 0 {
      NobodyStops(f, x);
    } else {
      GoOnFromParent(f, x, k);
      if f.parent[x] != null {
        SearchedIsBelow(f, root, f.parent[x], k - 1);
      }
    }
  }

  lemma {:induction false} NobodyStops(f: Forest, x: Node)
    ensures AllGoOn(f, x, 0)
  {
  }

  /** `x` is a label that the search from `root` comes to. */
  ghost predicate InScope(f: Forest, root: Node, x: Node) {
    x in f.kind && f.kind[x] == Label && exists k: nat :: SearchedAt(f, root, x, k)
  }

  lemma {:induction false} SearchedUp(f: Forest, root: Node, x: Node?, k: nat)
    requires SearchedAt(f, root, x, k)
    ensures Up(f.parent, x, k) == root
  {
    if k > 0 {
      SearchedUp(f, root, f.parent[x], k - 1);
    }
  }

  /** One more step at the top. */
  lemma {:induction false} SearchedFromChild(f: Forest, root: Node, c: Node, x: Node?, k: nat)
    requires Linked(f) && root in f.parent && c in f.children[root] && IsSearched(f.kind[root]) && SearchedAt(f, c, x, k)
    ensures SearchedAt(f, root, x, k + 1)
  {
    if k > 0 {
      SearchedFromChild(f, root, c, f.parent[x], k - 1);
    } else {
      assert SearchedAt(f, root, root, 0);
    }
  }

  /** The labels are the old ones and new ones that are in scope, each under its name. */
  ghost predicate WellRegistered(f: Forest, names: Names, before: map<Text, Node>, after: map<Text, Node>, root: Node) {
    && (forall s :: s in before ==> s in after && after[s] == before[s])
    && (forall s :: s in after && s !in before ==> after[s] in names && names[after[s]] == s && InScope(f, root, after[s]))
  }

  lemma {:induction false} UnderIsWellRegistered(f: Forest, kind: NodeType, names: Names, labels: map<Text, Node>, n: Node, h: nat)
    requires Linked(f) && n in f.parent
    ensures WellRegistered(f, names, labels, RegisterUnder(f, kind, names, labels, n, h).labels, n)
    decreases h, 0
  {
    if f.kind[n] == Label {
      assert SearchedAt(f, n, n, 0);
    } else if IsSearched(f.kind[n]) && h > 0 {
      AllIsWellRegistered(f, kind, names, labels, n, |f.children[n]|, h - 1);
    }
  }

  lemma {:induction false} AllIsWellRegistered(f: Forest, kind: NodeType, names: Names, labels: map<Text, Node>, n: Node, i: nat, h: nat)
    requires Linked(f) && n in f.parent && IsSearched(f.kind[n]) && i <= |f.children[n]|
    ensures WellRegistered(f, names, labels, RegisterAll(f, kind, names, labels, n, i, h).labels, n)
    decreases h, i + 1
  {
    if i > 0 {
      AllIsWellRegistered(f, kind, names, labels, n, i - 1, h);
      var r := RegisterAll(f, kind, names, labels, n, i - 1, h);
      if r.outcome == Done {
        var c := f.children[n][i - 1];
        assert c in f.children[n];
        UnderIsWellRegistered(f, kind, names, r.labels, c, h);
        ScopeOfChild(f, names, r.labels, RegisterUnder(f, kind, names, r.labels, c, h).labels, n, c);
      }
    }
  }

  lemma {:induction false} ScopeOfChild(f: Forest, names: Names, before: map<Text, Node>, after: map<Text, Node>, n: Node, c: Node)
    requires Linked(f) && n in f.parent && c in f.children[n] && IsSearched(f.kind[n])
    requires WellRegistered(f, names, before, after, c)
    ensures WellRegistered(f, names, before, after, n)
  {
    forall s | s in after && s !in before ensures InScope(f, n, after[s]) {
      var k: nat :| SearchedAt(f, c, after[s], k);
      SearchedFromChild(f, n, c, after[s], k);
    }
  }

  /** A name in scope is registered when the search comes to its end. */
  lemma {:induction false} FoundWhenDone(f: Forest, kind: NodeType, names: Names, labels: map<Text, Node>, n: Node, h: nat, x: Node, k: nat)
    requires Linked(f) && n in f.parent && HeightBelow(f.parent, n, h) && x in names && x in f.kind && f.kind[x] == Label
    requires SearchedAt(f, n, x, k) && RegisterUnder(f, kind, names, labels, n, h).outcome == Done
    ensures names[x] in RegisterUnder(f, kind, names, labels, n, h).labels
    decreases k
  {
    hide HeightBelow, InScope, Register;
    OneLabel(kind, names, labels, x);
    if k > 0 {
      var c := ChildOnTheWay(f, n, x, k);
      HeightPositive(f, n, h);
      ChildHeight(f, n, c, h);
      var i :| 0 <= i < |f.children[n]| && f.children[n][i] == c;
      AllDone(f, kind, names, labels, n, i + 1, |f.children[n]|, h - 1);
      AllDone(f, kind, names, labels, n, i, i + 1, h - 1);
      FoundWhenDone(f, kind, names, RegisterAll(f, kind, names, labels, n, i, h - 1).labels, c, h - 1, x, k - 1);
    }
  }

  /** The search goes on and what it found stays. */
  lemma {:induction false} AllDone(f: Forest, kind: NodeType, names: Names, labels: map<Text, Node>, n: Node, i: nat, j: nat, h: nat)
    requires Linked(f) && n in f.parent && IsSearched(f.kind[n]) && i <= j <= |f.children[n]|
    requires RegisterAll(f, kind, names, labels, n, j, h).outcome == Done
    ensures var r := RegisterAll(f, kind, names, labels, n, i, h);
      r.outcome == Done && forall s :: s in r.labels ==> s in RegisterAll(f, kind, names, labels, n, j, h).labels
    decreases j
  {
    if i < j {
      assert RegisterAll(f, kind, names, labels, n, j - 1, h).outcome == Done;
      AllDone(f, kind, names, labels, n, i, j - 1, h);
      assert f.children[n][j - 1] in f.children[n];
      UnderIsWellRegistered(f, kind, names, RegisterAll(f, kind, names, labels, n, j - 1, h).labels, f.children[n][j - 1], h);
    }
  }

  lemma {:induction false} ChildOnTheWay(f: Forest, n: Node, x: Node, k: nat) returns (c: Node)
    requires Linked(f) && n in f.parent && k > 0 && SearchedAt(f, n, x, k)
    ensures c in f.children[n] && IsSearched(f.kind[n]) && SearchedAt(f, c, x, k - 1)
  {
    if k == 1 {
      c := x;
      assert c in f.children[f.parent[c]];
    } else {
      c := ChildOnTheWay(f, n, f.parent[x], k - 1);
    }
  }

  // ------------------------------------------------------------------
  //  When the search ends
  // ------------------------------------------------------------------

  /** A name that raises no exception: it is taken already, or it is one a function can have. */
  predicate Fine(kind: NodeType, labels: map<Text, Node>, s: Text) {
    s in labels || (kind == Function && s != [])
  }

  ghost predicate Registrable(f: Forest, kind: NodeType, names: Names, labels: map<Text, Node>, n: Node) {
    forall x :: x in names && InScope(f, n, x) ==> Fine(kind, labels, names[x])
  }

  /** What is new among the labels has a name a function can have. */
  ghost predicate NewAreFine(kind: NodeType, before: map<Text, Node>, after: map<Text, Node>) {
    && (forall s :: s in before ==> s in after)
    && forall s :: s in after && s !in before ==> kind == Function && s != []
  }

  lemma {:induction false} UnderNewAreFine(f: Forest, kind: NodeType, names: Names, labels: map<Text, Node>, n: Node, h: nat)
    requires Linked(f) && n in f.parent
    ensures NewAreFine(kind, labels, RegisterUnder(f, kind, names, labels, n, h).labels)
    decreases h, 0
  {
    if IsSearched(f.kind[n]) && h > 0 {
      AllNewAreFine(f, kind, names, labels, n, |f.children[n]|, h - 1);
    }
  }

  lemma {:induction false} AllNewAreFine(f: Forest, kind: NodeType, names: Names, labels: map<Text, Node>, n: Node, i: nat, h: nat)
    requires Linked(f) && n in f.parent && i <= |f.children[n]|
    ensures NewAreFine(kind, labels, RegisterAll(f, kind, names, labels, n, i, h).labels)
    decreases h, i + 1
  {
    if i > 0 {
      AllNewAreFine(f, kind, names, labels, n, i - 1, h);
      var r := RegisterAll(f, kind, names, labels, n, i - 1, h);
      if r.outcome == Done {
        assert f.children[n][i - 1] in f.children[n];
        UnderNewAreFine(f, kind, names, r.labels, f.children[n][i - 1], h);
      }
    }
  }

  lemma {:induction false} StillRegistrable(f: Forest, kind: NodeType, names: Names, labels: map<Text, Node>, after: map<Text, Node>, n: Node)
    requires NewAreFine(kind, labels, after)
    ensures Registrable(f, kind, names, after, n) <==> Registrable(f, kind, names, labels, n)
  {
    hide InScope;
    forall x | x in names ensures Fine(kind, after, names[x]) <==> Fine(kind, labels, names[x]) {
    }
  }

  lemma {:induction false} ChildRegistrable(f: Forest, kind: NodeType, names: Names, labels: map<Text, Node>, n: Node, c: Node)
    requires Linked(f) && n in f.parent && n in f.children && n in f.kind && IsSearched(f.kind[n]) && c in f.children[n]
    requires Registrable(f, kind, names, labels, n)
    ensures Registrable(f, kind, names, labels, c)
  {
    hide Fine, Linked;
    forall x | x in names && InScope(f, c, x) ensures InScope(f, n, x) {
      var k: nat :| SearchedAt(f, c, x, k);
      SearchedFromChild(f, n, c, x, k);
    }
  }

  /** A label in scope is in scope of one of the children. */
  lemma {:induction false} ScopeOfSomeChild(f: Forest, n: Node, x: Node) returns (j: nat)
    requires Linked(f) && n in f.parent && n in f.children && n in f.kind && IsSearched(f.kind[n]) && InScope(f, n, x)
    ensures j < |f.children[n]| && InScope(f, f.children[n][j], x)
  {
    hide Linked;
    var k: nat :| SearchedAt(f, n, x, k);
    var c := ChildOnTheWay(f, n, x, k);
    j :| 0 <= j < |f.children[n]| && f.children[n][j] == c;
  }

  /** Below a node that is searched, the labels in scope are those in scope of its children. */
  lemma {:induction false} RegistrableChildren(f: Forest, kind: NodeType, names: Names, labels: map<Text, Node>, n: Node)
    requires Linked(f) && n in f.parent && n in f.children && n in f.kind && IsSearched(f.kind[n])
    ensures Registrable(f, kind, names, labels, n)
      <==> forall j :: 0 <= j < |f.children[n]| ==> Registrable(f, kind, names, labels, f.children[n][j])
  {
    hide Fine, Linked, InScope;
    if Registrable(f, kind, names, labels, n) {
      forall j | 0 <= j < |f.children[n]| ensures Registrable(f, kind, names, labels, f.children[n][j]) {
        ChildRegistrable(f, kind, names, labels, n, f.children[n][j]);
      }
    }
    if forall j :: 0 <= j < |f.children[n]| ==> Registrable(f, kind, names, labels, f.children[n][j]) {
      forall x | x in names && InScope(f, n, x) ensures Fine(kind, labels, names[x]) {
        var j := ScopeOfSomeChild(f, n, x);
        assert Registrable(f, kind, names, labels, f.children[n][j]);
      }
    }
  }

  /** A node that is not searched has no other label in scope than itself. */
  lemma {:induction false} NothingBelow(f: Forest, n: Node, x: Node)
    requires Linked(f) && n in f.parent && n in f.kind && !IsSearched(f.kind[n])
    ensures InScope(f, n, x) <==> x == n && f.kind[n] == Label
  {
    if InScope(f, n, x) {
      var k: nat :| SearchedAt(f, n, x, k);
      if k > 0 {
        var c := ChildOnTheWay(f, n, x, k);
      }
    }
    assert SearchedAt(f, n, n, 0);
  }

  /** The search comes to its end exactly when every name in scope is fine: taken already, or not
      empty and for a function. Otherwise an exception ends it. */
  lemma {:induction false} SearchEnds(f: Forest, kind: NodeType, names: Names, labels: map<Text, Node>, n: Node, h: nat)
    requires Linked(f) && n in f.parent && HeightBelow(f.parent, n, h) && names.Keys == f.parent.Keys
    ensures RegisterUnder(f, kind, names, labels, n, h).outcome == Done <==> Registrable(f, kind, names, labels, n)
    decreases h, 0
  {
    hide HeightBelow, InScope, Register, RegisterUnder, RegisterAll, Registrable;
    LinkedIsClosed(f);
    HeightPositive(f, n, h);
    UnderStep(f, kind, names, labels, n, h);
    if IsSearched(f.kind[n]) {
      AllEnds(f, kind, names, labels, n, |f.children[n]|, h);
      RegistrableChildren(f, kind, names, labels, n);
    } else {
      AloneEnds(f, kind, names, labels, n);
    }
  }

  lemma {:induction false} AloneEnds(f: Forest, kind: NodeType, names: Names, labels: map<Text, Node>, n: Node)
    requires Linked(f) && n in f.parent && n in f.kind && !IsSearched(f.kind[n]) && n in names
    ensures Registrable(f, kind, names, labels, n) <==> f.kind[n] != Label || Register(kind, names, labels, n).outcome == Done
  {
    hide InScope, Linked;
    forall x ensures InScope(f, n, x) <==> x == n && f.kind[n] == Label {
      NothingBelow(f, n, x);
    }
  }

  lemma {:induction false} AllEnds(f: Forest, kind: NodeType, names: Names, labels: map<Text, Node>, n: Node, i: nat, h: nat)
    requires Linked(f) && n in f.parent && n in f.children && i <= |f.children[n]| && names.Keys == f.parent.Keys
    requires HeightBelow(f.parent, n, h) && h > 0
    ensures RegisterAll(f, kind, names, labels, n, i, h - 1).outcome == Done
      <==> forall j :: 0 <= j < i ==> Registrable(f, kind, names, labels, f.children[n][j])
    decreases h - 1, i + 1
  {
    hide HeightBelow, InScope, Register, RegisterUnder, RegisterAll, Registrable, NewAreFine, Linked;
    LinkedIsClosed(f);
    UnderStep(f, kind, names, labels, n, h);
    if i > 0 {
      AllEnds(f, kind, names, labels, n, i - 1, h);
      AllStep(f, kind, names, labels, n, i - 1, h - 1);
      var r, c := RegisterAll(f, kind, names, labels, n, i - 1, h - 1), f.children[n][i - 1];
      ChildIsIn(f, n, i - 1);
      ChildHeight(f, n, c, h);
      SearchEnds(f, kind, names, r.labels, c, h - 1);
      AllNewAreFine(f, kind, names, labels, n, i - 1, h - 1);
      StillRegistrable(f, kind, names, labels, r.labels, c);
    }
  }

  /** When the names in scope are fine the search registers all of them, and when they are not an
      exception ends it. */
  lemma {:induction false} EveryLabelIsFound(f: Forest, kind: NodeType, names: Names, labels: map<Text, Node>, n: Node, h: nat)
    requires Linked(f) && n in f.parent && HeightBelow(f.parent, n, h) && names.Keys == f.parent.Keys
    ensures var r := RegisterUnder(f, kind, names, labels, n, h);
      && (r.outcome == Done <==> Registrable(f, kind, names, labels, n))
      && (Registrable(f, kind, names, labels, n) ==> forall x :: x in names && InScope(f, n, x) ==> names[x] in r.labels)
  {
    hide HeightBelow, Linked, RegisterUnder, Registrable;
    LinkedIsClosed(f);
    SearchEnds(f, kind, names, labels, n, h);
    if Registrable(f, kind, names, labels, n) {
      forall x | x in names && InScope(f, n, x) ensures names[x] in RegisterUnder(f, kind, names, labels, n, h).labels {
        var k: nat :| SearchedAt(f, n, x, k);
        FoundWhenDone(f, kind, names, labels, n, h, x, k);
      }
    }
  }

  /** Outside functions the first label raises. */
  lemma {:induction false} OneLabelRaises(f: Forest, kind: NodeType, names: Names, d: Node, l: Node)
    requires Closed(f) && d in f.parent && f.children[d] == [l] && l in f.parent && kind != Function
    requires IsSearched(f.kind[d]) && f.kind[l] == Label && l in names
    ensures RegisterUnder(f, kind, names, map[], d, 2) == Registered(map[], IncompatibleType)
  {
    assert RegisterAll(f, kind, names, map[], d, 0, 1) == Registered(map[], Done);
    assert RegisterUnder(f, kind, names, map[], l, 1) == Registered(map[], IncompatibleType);
    assert RegisterAll(f, kind, names, map[], d, 1, 1) == Registered(map[], IncompatibleType);
  }

  /** A program with one directive list with one label. */
  ghost function OneLabelProgram(p: Node, d: Node, l: Node): Forest {
    Forest(map[p := Program, d := DirectiveList, l := Label], map[p := null, d := p, l := d],
           map[p := [d], d := [l], l := []], map[p := 0, d := 0, l := 0])
  }

  lemma {:induction false} ProgramIsClosed(p: Node, d: Node, l: Node)
    requires p != d && d != l && l != p
    ensures var f := OneLabelProgram(p, d, l);
      && Closed(f) && f.parent.Keys == f.kind.Keys == f.children.Keys == {p, d, l}
      && f.kind[p] == Program && f.kind[d] == DirectiveList && f.kind[l] == Label && f.children[d] == [l]
  {
  }

  /** The search in such a program ends in an exception. */
  lemma {:induction false} LabelInProgram(p: Node, d: Node, l: Node, s: Text)
    requires p != d && d != l && l != p
    ensures var f := OneLabelProgram(p, d, l);
      && Closed(f) && d in f.parent && f.kind[p] == Program
      && RegisterUnder(f, f.kind[p], map[p := [], d := [], l := s], map[], d, 2) == Registered(map[], IncompatibleType)
  {
    hide RegisterUnder, OneLabelProgram, Closed;
    ProgramIsClosed(p, d, l);
    OneLabelRaises(OneLabelProgram(p, d, l), Program, map[p := [], d := [], l := s], d, l);
  }
}
