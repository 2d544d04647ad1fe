/** `clean_tree()` is a filter on the tree, read in document order. */
module CleanFilter {
  import opened Sequences
  import opened NodeTree
  import opened ForestLaws
  import opened CleanTree

  /** The nodes of the tree at `n`, in document order, down to `h` levels. */
  ghost function Preorder(children: map<Node, seq<Node>>, n: Node, h: nat): seq<Node>
    decreases h, 0
  {
    if h == 0 || n !in children then [] else [n] + PreorderAll(children, children[n], h - 1)
  }

  ghost function PreorderAll(children: map<Node, seq<Node>>, s: seq<Node>, h: nat): seq<Node>
    decreases h, 1 + |s|
  {
    if s == [] then [] else Preorder(children, s[0], h) + PreorderAll(children, s[1..], h)
  }

  ghost function Filter(s: seq<Node>, keep: set<Node>): seq<Node> {
    if s == [] then []
    else (if s[0] in keep then [s[0]] else []) + Filter(s[1..], keep)
  }

  lemma {:induction false} FilterConcat(a: seq<Node>, b: seq<Node>, keep: set<Node>)
    ensures Filter(a + b, keep) == Filter(a, keep) + Filter(b, keep)
  {
    if a == [] {
      assert a + b == b;
    } else {
      FilterConcat(a[1..], b, keep);
      var x := if a[0] in keep then [a[0]] else [];
      calc {
        Filter(a + b, keep);
        { assert (a + b)[1..] == a[1..] + b; }
        x + Filter(a[1..] + b, keep);
        x + (Filter(a[1..], keep) + Filter(b, keep));
        (x + Filter(a[1..], keep)) + Filter(b, keep);
      }
    }
  }

  lemma {:induction false} KeptStep(f: Forest, t: Node, n: Node)
    requires Linked(f) && n in f.parent && Kept(f, t, n) && n != t
    ensures f.kind[n] != Unknown && f.parent[n] != null && Kept(f, t, f.parent[n])
  {
    var k: nat :| KeptAt(f, t, n, k);
    assert KeptAt(f, t, f.parent[n], k - 1);
  }

  lemma {:induction false} KeptChild(f: Forest, t: Node, n: Node, c: Node)
    requires Linked(f) && n in f.parent && c in f.children[n] && Kept(f, t, n) && f.kind[c] != Unknown
    ensures Kept(f, t, c)
  {
    var k: nat :| KeptAt(f, t, n, k);
    assert KeptAt(f, t, c, k + 1);
  }

  /** Exactly the kept nodes are still below the root, and all but the root are known. */
  lemma {:induction false} CleanedKeepsExactly(f: Forest, t: Node, n: Node)
    requires Linked(f) && n in f.parent
    ensures Under(Cleaned(f, t).parent, n, t) <==> Kept(f, t, n)
    ensures Kept(f, t, n) && n != t ==> f.kind[n] != Unknown
  {
    var g := Cleaned(f, t);
    if Kept(f, t, n) {
      var k: nat :| KeptAt(f, t, n, k);
      KeptStillUnder(f, t, n, k);
      if n != t { KeptStep(f, t, n); }
    }
    if Under(g.parent, n, t) {
      var k: nat :| Up(g.parent, n, k) == t;
      StillUnderIsKept(f, t, n, k);
    }
  }

  lemma {:induction false} KeptStillUnder(f: Forest, t: Node, n: Node?, k: nat)
    requires Linked(f) && KeptAt(f, t, n, k)
    ensures Up(Cleaned(f, t).parent, n, k) == t
    decreases k
  {
    if k > 0 { KeptStillUnder(f, t, f.parent[n], k - 1); }
  }

  lemma {:induction false} StillUnderIsKept(f: Forest, t: Node, n: Node, k: nat)
    requires Linked(f) && n in f.parent && Up(Cleaned(f, t).parent, n, k) == t
    ensures Kept(f, t, n)
    decreases k
  {
    var g := Cleaned(f, t);
    if n == t {
      assert KeptAt(f, t, n, 0);
    } else {
      var p := g.parent[n];
      assert p == f.parent[n] && p != null && p in f.parent;
      StillUnderIsKept(f, t, p, k - 1);
      assert p in KeptSet(f, t);
      assert n in f.children[f.parent[n]];
      KeptChild(f, t, p, n);
    }
  }

  /** Nothing is kept below a node that is not kept, unless the root is down there. */
  lemma {:induction false} NothingKeptBelow(f: Forest, t: Node, c: Node, h: nat)
    requires Linked(f) && c in f.parent && c !in KeptSet(f, t) && !Under(f.parent, t, c)
    ensures Filter(Preorder(f.children, c, h), KeptSet(f, t)) == []
    decreases h, 0
  {
    if h > 0 {
      NothingKeptBelowAll(f, t, c, f.children[c], h - 1);
      assert ([c] + PreorderAll(f.children, f.children[c], h - 1))[1..] == PreorderAll(f.children, f.children[c], h - 1);
    }
  }

  lemma {:induction false} NothingKeptBelowAll(f: Forest, t: Node, c: Node, s: seq<Node>, h: nat)
    requires Linked(f) && c in f.parent && c !in KeptSet(f, t) && !Under(f.parent, t, c)
    requires forall d :: d in s ==> d in f.children[c]
    ensures Filter(PreorderAll(f.children, s, h), KeptSet(f, t)) == []
    decreases h, 1 + |s|
  {
    if s != [] {
      var d := s[0];
      assert d in f.children[c];
      if d in KeptSet(f, t) {
        if d == t { assert Up(f.parent, t, 1) == c; }
        else { KeptStep(f, t, d); }
      }
      if Under(f.parent, t, d) { UnderUp(f, t, d, c); }
      NothingKeptBelow(f, t, d, h);
      NothingKeptBelowAll(f, t, c, s[1..], h);
      FilterConcat(Preorder(f.children, d, h), PreorderAll(f.children, s[1..], h), KeptSet(f, t));
    }
  }

  lemma {:induction false} UnderUp(f: Forest, n: Node, d: Node, c: Node)
    requires Linked(f) && n in f.parent && d in f.parent && f.parent[d] == c && Under(f.parent, n, d)
    ensures Under(f.parent, n, c)
  {
    var k: nat :| Up(f.parent, n, k) == d;
    UpAdd(f.parent, n, k, 1);
    assert Up(f.parent, d, 1) == c;
    assert Up(f.parent, n, k + 1) == c;
  }

  lemma {:induction false} KeptNotAbove(f: Forest, t: Node, n: Node, c: Node)
    requires Linked(f) && NoOwnAncestor(f.parent) && t in f.parent && n in f.parent && c in f.children[n] && Kept(f, t, n)
    ensures c != t && !Under(f.parent, t, c)
  {
    var k: nat :| KeptAt(f, t, n, k);
    KeptIsUnder(f, t, n, k);
    assert Up(f.parent, c, k + 1) == t;
    if Under(f.parent, t, c) {
      var j: nat :| Up(f.parent, t, j) == c;
      UpAdd(f.parent, c, k + 1, j);
    }
  }

  /** The document order of the cleaned tree is the document order of the tree, filtered. */
  lemma {:induction false} CleanedIsFiltered(f: Forest, t: Node, n: Node, h: nat)
    requires Linked(f) && NoOwnAncestor(f.parent) && t in f.parent && n in f.parent && Kept(f, t, n)
    ensures Preorder(Cleaned(f, t).children, n, h) == Filter(Preorder(f.children, n, h), KeptSet(f, t))
    decreases h, 0
  {
    if h > 0 {
      CleanedIsFilteredAll(f, t, n, f.children[n], h - 1);
      assert ([n] + PreorderAll(f.children, f.children[n], h - 1))[1..] == PreorderAll(f.children, f.children[n], h - 1);
    }
  }

  lemma {:induction false} CleanedIsFilteredAll(f: Forest, t: Node, n: Node, s: seq<Node>, h: nat)
    requires Linked(f) && NoOwnAncestor(f.parent) && t in f.parent && n in f.parent && Kept(f, t, n)
    requires forall c :: c in s ==> c in f.children[n]
    ensures PreorderAll(Cleaned(f, t).children, Known(f.kind, s), h) == Filter(PreorderAll(f.children, s, h), KeptSet(f, t))
    decreases h, 1 + |s|
  {
    if s != [] {
      var c := s[0];
      assert c in f.children[n];
      KeptNotAbove(f, t, n, c);
      CleanedIsFilteredAll(f, t, n, s[1..], h);
      FilterConcat(Preorder(f.children, c, h), PreorderAll(f.children, s[1..], h), KeptSet(f, t));
      if f.kind[c] == Unknown {
        if c in KeptSet(f, t) { KeptStep(f, t, c); }
        NothingKeptBelow(f, t, c, h);
      } else {
        KeptChild(f, t, n, c);
        CleanedIsFiltered(f, t, c, h);
        assert ([c] + Known(f.kind, s[1..]))[1..] == Known(f.kind, s[1..]);
      }
    }
  }
}
