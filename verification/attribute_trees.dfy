/** Which nodes the setting of an attribute in a tree reaches. */
module AttributeTrees {
  import opened NodeTree
  import opened ForestLaws
  import opened CleanTree
  import opened GotoTargets
  import opened Attributes
  import A = AttributeKinds

  /** `x` is below one of the first `i` children of `n`. */
  ghost predicate BelowChildren(f: Forest, n: Node, i: nat, x: Node)
    requires n in f.children && i <= |f.children[n]|
  {
    exists j :: 0 <= j < i && Under(f.parent, x, f.children[n][j])
  }

  lemma {:induction false} BelowMore(f: Forest, n: Node, i: nat, x: Node)
    requires n in f.children && i < |f.children[n]|
    ensures BelowChildren(f, n, i + 1, x) <==> BelowChildren(f, n, i, x) || Under(f.parent, x, f.children[n][i])
  {
  }

  /** A node is below `n` if it is `n` or below a child of it. */
  lemma {:induction false} UnderChildren(f: Forest, n: Node, x: Node)
    requires Linked(f) && n in f.parent && x in f.parent
    ensures Under(f.parent, x, n) <==> x == n || BelowChildren(f, n, |f.children[n]|, x)
  {
    assert Up(f.parent, n, 0) == n;
    if Under(f.parent, x, n) && x != n {
      var k: nat :| Up(f.parent, x, k) == n;
      ChildOnTheWay(f, n, x, k);
    }
    if j :| 0 <= j < |f.children[n]| && Under(f.parent, x, f.children[n][j]) {
      var c := f.children[n][j];
      assert c in f.children[n] && f.parent[c] == n;
      var k: nat :| Up(f.parent, x, k) == c;
      UpAdd(f.parent, x, k, 1);
      assert Up(f.parent, c, 1) == n by { assert Up(f.parent, n, 0) == n; }
      assert Up(f.parent, x, k + 1) == n;
    }
  }

  lemma {:induction false} ChildOnTheWay(f: Forest, n: Node, x: Node, k: nat)
    requires Linked(f) && n in f.parent && x in f.parent && x != n && Up(f.parent, x, k) == n
    ensures BelowChildren(f, n, |f.children[n]|, x)
    decreases k
  {
    var p := f.parent[x];
    assert k > 0 && p != null && Up(f.parent, p, k - 1) == n;
    if p == n {
      assert x in f.children[n];
      var j :| 0 <= j < |f.children[n]| && f.children[n][j] == x;
      assert Up(f.parent, x, 0) == f.children[n][j];
    } else {
      ChildOnTheWay(f, n, p, k - 1);
      var j :| 0 <= j < |f.children[n]| && Under(f.parent, p, f.children[n][j]);
      var i: nat :| Up(f.parent, p, i) == f.children[n][j];
      assert Up(f.parent, x, i + 1) == f.children[n][j];
    }
  }

  lemma {:induction false} PutTwice(s: AttributeSet, a: A.Attribute, v: bool)
    ensures A.Put(A.Put(s, a, v), a, v) == A.Put(s, a, v)
  {
    A.RivalsAreMutual(a, a);
    hide A.Rivals;
  }

  /** The nodes in question have the attribute set or cleared once, the others are as they were. */
  ghost predicate Reached(m: AttributeMap, r: AttributeMap, a: A.Attribute, v: bool, x: Node, reached: bool) {
    x in m.Keys && x in r.Keys && r[x] == if reached then A.Put(m[x], a, v) else m[x]
  }

  /** Only the nodes in question can have changed. */
  ghost predicate Touched(m: AttributeMap, r: AttributeMap, a: A.Attribute, v: bool, x: Node, mayChange: bool) {
    x in m.Keys && x in r.Keys && (r[x] == m[x] || (mayChange && r[x] == A.Put(m[x], a, v)))
  }

  lemma {:induction false} InTwoSteps(m: AttributeMap, q: AttributeMap, r: AttributeMap, a: A.Attribute, v: bool, x: Node, first: bool, second: bool)
    requires Reached(m, q, a, v, x, first) && Touched(q, r, a, v, x, second)
    ensures Touched(m, r, a, v, x, first || second)
    ensures Reached(q, r, a, v, x, second) ==> Reached(m, r, a, v, x, first || second)
  {
    hide A.Put;
    PutTwice(m[x], a, v);
  }

  lemma {:induction false} TouchedMore(m: AttributeMap, r: AttributeMap, a: A.Attribute, v: bool, x: Node, first: bool, second: bool)
    requires Touched(m, r, a, v, x, first)
    ensures Touched(m, r, a, v, x, first || second)
  {
  }

  /** After a success the attribute is set or cleared on the node and all nodes below it, and on no other. It is a success
      exactly when all of them can have the attribute. */
  lemma {:induction false} TreeReaches(f: Forest, typed: NodeType -> bool, m: AttributeMap, n: Node, a: A.Attribute, v: bool, h: nat)
    requires Linked(f) && n in f.parent && m.Keys == f.parent.Keys && HeightBelow(f.parent, n, h)
    ensures var r := SetTree(f, typed, m, n, a, v, h);
      && (r.outcome == Done <==> forall x :: x in f.parent && Under(f.parent, x, n) ==> Accepts(typed, f.kind[x], a))
      && (r.outcome == Done ==> forall x :: x in f.parent ==> Reached(m, r.m, a, v, x, Under(f.parent, x, n)))
      && (forall x :: x in f.parent ==> Touched(m, r.m, a, v, x, Under(f.parent, x, n)))
    decreases h, 0
  {
    hide A.Put, Linked, HeightBelow, SetTree, SetChildren, Accepts, Under, BelowChildren, Touched, Reached;
    LinkedIsClosed(f);
    HeightPositive(f, n, h);
    TreeStep(f, typed, m, n, a, v, h);
    var r := SetTree(f, typed, m, n, a, v, h);
    forall x | x in f.parent ensures Under(f.parent, x, n) <==> x == n || BelowChildren(f, n, |f.children[n]|, x) {
      UnderChildren(f, n, x);
    }
    if Accepts(typed, f.kind[n], a) {
      var m' := m[n := A.Put(m[n], a, v)];
      ChildrenReach(f, typed, m', n, |f.children[n]|, a, v, h);
      forall x | x in f.parent
        ensures Touched(m, r.m, a, v, x, Under(f.parent, x, n))
        ensures r.outcome == Done ==> Reached(m, r.m, a, v, x, Under(f.parent, x, n))
      {
        ThisNode(m, a, v, n, x);
        InTwoSteps(m, m', r.m, a, v, x, x == n, BelowChildren(f, n, |f.children[n]|, x));
      }
    } else {
      forall x | x in f.parent ensures Touched(m, m, a, v, x, Under(f.parent, x, n)) {
        Untouched(m, a, v, x);
        TouchedMore(m, m, a, v, x, false, Under(f.parent, x, n));
      }
    }
  }

  lemma {:induction false} ThisNode(m: AttributeMap, a: A.Attribute, v: bool, n: Node, x: Node)
    requires n in m.Keys && x in m.Keys
    ensures Reached(m, m[n := A.Put(m[n], a, v)], a, v, x, x == n)
  {
  }

  lemma {:induction false} ChildrenReach(f: Forest, typed: NodeType -> bool, m: AttributeMap, n: Node, i: nat, a: A.Attribute, v: bool, h: nat)
    requires Linked(f) && n in f.parent && m.Keys == f.parent.Keys && i <= |f.children[n]| && HeightBelow(f.parent, n, h) && h > 0
    ensures var r := SetChildren(f, typed, m, n, i, a, v, h - 1);
      && (r.outcome == Done <==> forall x :: x in f.parent && BelowChildren(f, n, i, x) ==> Accepts(typed, f.kind[x], a))
      && (r.outcome == Done ==> forall x :: x in f.parent ==> Reached(m, r.m, a, v, x, BelowChildren(f, n, i, x)))
      && (forall x :: x in f.parent ==> Touched(m, r.m, a, v, x, BelowChildren(f, n, i, x)))
    decreases h, 0, i
  {
    hide A.Put, Linked, HeightBelow, SetTree, SetChildren, Accepts, Under, BelowChildren, Touched, Reached;
    LinkedIsClosed(f);
    if i == 0 {
      NoChildYet(f, typed, m, n, a, v, h - 1);
      forall x | x in f.parent
        ensures !BelowChildren(f, n, 0, x) && Touched(m, m, a, v, x, false) && Reached(m, m, a, v, x, false)
      {
        NoneBelow(f, n, x);
        Untouched(m, a, v, x);
      }
    } else {
      var c := f.children[n][i - 1];
      ChildIsIn(f, n, i - 1);
      ChildHeight(f, n, c, h);
      ChildStep(f, typed, m, n, i - 1, a, v, h - 1);
      ChildrenReach(f, typed, m, n, i - 1, a, v, h);
      var q := SetChildren(f, typed, m, n, i - 1, a, v, h - 1);
      forall x | x in f.parent ensures BelowChildren(f, n, i, x) <==> BelowChildren(f, n, i - 1, x) || Under(f.parent, x, c) {
        BelowMore(f, n, i - 1, x);
      }
      if q.outcome == Done {
        TreeReaches(f, typed, q.m, c, a, v, h - 1);
        var r := SetTree(f, typed, q.m, c, a, v, h - 1);
        forall x | x in f.parent
          ensures Touched(m, r.m, a, v, x, BelowChildren(f, n, i, x))
          ensures r.outcome == Done ==> Reached(m, r.m, a, v, x, BelowChildren(f, n, i, x))
        {
          InTwoSteps(m, q.m, r.m, a, v, x, BelowChildren(f, n, i - 1, x), Under(f.parent, x, c));
        }
      } else {
        forall x | x in f.parent ensures Touched(m, q.m, a, v, x, BelowChildren(f, n, i, x)) {
          TouchedMore(m, q.m, a, v, x, BelowChildren(f, n, i - 1, x), Under(f.parent, x, c));
        }
      }
    }
  }

  lemma {:induction false} Untouched(m: AttributeMap, a: A.Attribute, v: bool, x: Node)
    requires x in m.Keys
    ensures Touched(m, m, a, v, x, false) && Reached(m, m, a, v, x, false)
  {
  }

  lemma {:induction false} NoneBelow(f: Forest, n: Node, x: Node)
    requires n in f.children
    ensures !BelowChildren(f, n, 0, x)
  {
  }
}
