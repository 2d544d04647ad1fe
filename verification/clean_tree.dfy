/** `clean_tree()`: the loop that deletes the children of type Unknown while it walks the
    vectors it shortens. */
module CleanTree {
  import opened Sequences
  import opened NodeTree
  import opened ForestLaws

  // ------------------------------------------------------------------
  //  What is kept
  // ------------------------------------------------------------------

  /** From `n` the known nodes lead up to `root` in `k` steps. */
  ghost predicate KeptAt(f: Forest, root: Node, n: Node?, k: nat) {
    if k == 0 then n == root
    else n != null && n in f.parent && n in f.kind && f.kind[n] != Unknown && KeptAt(f, root, f.parent[n], k - 1)
  }

  /** `n` is the root, or a descendant with no unknown node on the way from the root. */
  ghost predicate Kept(f: Forest, root: Node, n: Node) {
    exists k: nat :: KeptAt(f, root, n, k)
  }

  ghost function KeptSet(f: Forest, root: Node): set<Node> {
    set n | n in f.parent && Kept(f, root, n)
  }

  /** The known nodes of a vector, in their order. */
  ghost function Known(kind: map<Node, NodeType>, s: seq<Node>): seq<Node> {
    if s == [] then []
    else if s[0] in kind && kind[s[0]] == Unknown then Known(kind, s[1..])
    else [s[0]] + Known(kind, s[1..])
  }

  /** The forest in which the unknown children of the nodes in `at` are gone. */
  ghost function Pruned(f: Forest, at: set<Node>): Forest
    requires Closed(f)
  {
    f.(parent := map n | n in f.parent :: if f.kind[n] == Unknown && f.parent[n] in at then null else f.parent[n],
       children := map n | n in f.children :: if n in at then Known(f.kind, f.children[n]) else f.children[n])
  }

  /** What `clean_tree()` leaves. */
  ghost function Cleaned(f: Forest, root: Node): Forest
    requires Closed(f)
  {
    Pruned(f, KeptSet(f, root))
  }

  // ------------------------------------------------------------------
  //  The loop
  // ------------------------------------------------------------------

  /** `f` with the unknown children of the nodes in `at` cut off, the unknown nodes in `done`
      cut off too, and `rest` left as the children of `t`. */
  ghost function Half(f: Forest, at: set<Node>, done: set<Node>, t: Node, rest: seq<Node>): Forest
    requires Closed(f)
  {
    f.(parent := map n | n in f.parent :: if f.kind[n] == Unknown && (f.parent[n] in at || n in done) then null else f.parent[n],
       children := map n | n in f.children ::
                     if n == t then rest else if n in at then Known(f.kind, f.children[n]) else f.children[n])
  }

  ghost function From(s: seq<Node>, i: nat): set<Node>
    requires i <= |s|
    decreases |s| - i
  {
    if i == |s| then {} else {s[i]} + From(s, i + 1)
  }

  lemma {:induction false} FromMembers(s: seq<Node>, i: nat, x: Node)
    requires i <= |s|
    ensures x in From(s, i) <==> x in s[i..]
    decreases |s| - i
  {
    if i < |s| {
      FromMembers(s, i + 1, x);
      assert s[i..] == [s[i]] + s[i + 1..];
    }
  }

  /** The state of the loop at `t`: the children from `i` on are done, and so are the nodes
      in `at`, which lie below them. */
  ghost function HalfPruned(f: Forest, at: set<Node>, t: Node, i: nat): Forest
    requires Closed(f) && t in f.parent && i <= |f.children[t]|
  {
    Half(f, at, From(f.children[t], i), t, f.children[t][..i] + Known(f.kind, f.children[t][i..]))
  }

  /** The nodes kept below the known children of `t` from position `i` on. */
  ghost function KeptFrom(f: Forest, t: Node, i: nat): set<Node>
    requires Closed(f) && t in f.parent && i <= |f.children[t]|
    decreases |f.children[t]| - i
  {
    if i == |f.children[t]| then {}
    else
      var c := f.children[t][i];
      KeptFrom(f, t, i + 1) + if c in f.kind && f.kind[c] == Unknown then {} else KeptSet(f, c)
  }

  /** Every chain that leads up to `t` is shorter than `h`. */
  ghost predicate HeightBelow(up: ParentMap, t: Node, h: nat) {
    forall n, k: nat {:trigger Up(up, n, k)} :: n in up && Up(up, n, k) == t ==> k < h
  }

  /** `g` is `f` with some links cut. */
  ghost predicate OnlyCut(f: Forest, g: Forest) {
    && Linked(g) && g.kind == f.kind && g.lock == f.lock && g.parent.Keys == f.parent.Keys
    && (forall n {:trigger g.parent[n]} :: n in f.parent ==> g.parent[n] == null || g.parent[n] == f.parent[n])
  }

  lemma {:induction false} CutUp(up: ParentMap, up': ParentMap, n: Node?, k: nat)
    requires up.Keys == up'.Keys && forall m {:trigger up'[m]} :: m in up ==> up'[m] == null || up'[m] == up[m]
    ensures Up(up', n, k) != null ==> Up(up', n, k) == Up(up, n, k)
    decreases k
  {
    if k > 0 && n != null && n in up && up'[n] != null {
      CutUp(up, up', up[n], k - 1);
    }
  }

  lemma {:induction false} CutGrounded(up: ParentMap, up': ParentMap, n: Node?, k: nat)
    requires up.Keys == up'.Keys && forall m {:trigger up'[m]} :: m in up ==> up'[m] == null || up'[m] == up[m]
    requires Grounded(up, n, k)
    ensures Grounded(up', n, k)
    decreases k
  {
    if n != null && up'[n] != null {
      CutGrounded(up, up', up[n], k - 1);
    }
  }

  /** Cutting links keeps a forest acyclic and no higher. */
  lemma {:induction false} CutKeepsShape(f: Forest, g: Forest)
    requires OnlyCut(f, g) && Acyclic(f.parent)
    ensures Acyclic(g.parent)
    ensures forall t, h: nat :: HeightBelow(f.parent, t, h) ==> HeightBelow(g.parent, t, h)
  {
    var k: nat :| AllGrounded(f.parent, k);
    forall n | n in g.parent ensures Grounded(g.parent, n, k) {
      CutGrounded(f.parent, g.parent, n, k);
    }
    assert AllGrounded(g.parent, k);
    forall t, h: nat | HeightBelow(f.parent, t, h) ensures HeightBelow(g.parent, t, h) {
      forall n, j: nat | n in g.parent && Up(g.parent, n, j) == t ensures j < h {
        CutUp(f.parent, g.parent, n, j);
      }
    }
  }

  lemma {:induction false} ChildHeight(f: Forest, t: Node, c: Node, h: nat)
    requires Linked(f) && t in f.parent && c in f.children[t] && HeightBelow(f.parent, t, h)
    ensures h > 0 && HeightBelow(f.parent, c, h - 1)
  {
    assert Up(f.parent, t, 0) == t;
    forall n, k: nat | n in f.parent && Up(f.parent, n, k) == c ensures k < h - 1 {
      UpAdd(f.parent, n, k, 1);
      assert Up(f.parent, c, 1) == t;
      assert Up(f.parent, n, k + 1) == t;
    }
  }

  lemma {:induction false} KeptIsUnder(f: Forest, root: Node, n: Node?, k: nat)
    requires KeptAt(f, root, n, k)
    ensures Up(f.parent, n, k) == root
    decreases k
  {
    if k > 0 { KeptIsUnder(f, root, f.parent[n], k - 1); }
  }

  /** A node is not kept below its own child. */
  lemma {:induction false} NotBelowChild(f: Forest, t: Node, c: Node)
    requires Linked(f) && NoOwnAncestor(f.parent) && t in f.parent && c in f.children[t]
    ensures t !in KeptSet(f, c)
  {
    assert Up(f.parent, c, 1) == t;
    if t in KeptSet(f, c) {
      var k: nat :| KeptAt(f, c, t, k);
      KeptIsUnder(f, c, t, k);
      UpAdd(f.parent, t, k, 1);
    }
  }

  lemma {:induction false} NotInKeptFrom(f: Forest, t: Node, i: nat)
    requires Linked(f) && NoOwnAncestor(f.parent) && t in f.parent && i <= |f.children[t]|
    ensures t !in KeptFrom(f, t, i)
    decreases |f.children[t]| - i
  {
    if i < |f.children[t]| {
      assert f.children[t][i] in f.children[t];
      NotBelowChild(f, t, f.children[t][i]);
      NotInKeptFrom(f, t, i + 1);
    }
  }

  // ------------------------------------------------------------------
  //  One turn of the loop
  // ------------------------------------------------------------------

  lemma {:induction false} HalfStart(f: Forest, t: Node)
    requires Linked(f) && t in f.parent
    ensures HalfPruned(f, {}, t, |f.children[t]|) == f
  {
    var g := HalfPruned(f, {}, t, |f.children[t]|);
    var s := f.children[t];
    assert s[..|s|] + Known(f.kind, s[|s|..]) == s;
    assert g.parent == f.parent;
    assert g.children == f.children;
  }

  lemma {:induction false} KnownSplit(kind: map<Node, NodeType>, s: seq<Node>, i: nat)
    requires i < |s|
    ensures Known(kind, s[i..]) == (if s[i] in kind && kind[s[i]] == Unknown then [] else [s[i]]) + Known(kind, s[i + 1..])
  {
    assert s[i..][1..] == s[i + 1..];
  }

  lemma {:induction false} KnownMembers(kind: map<Node, NodeType>, s: seq<Node>)
    ensures forall x {:trigger x in Known(kind, s)} :: x in Known(kind, s) <==> x in s && !(x in kind && kind[x] == Unknown)
  {
    if s != [] {
      KnownMembers(kind, s[1..]);
    }
  }

  /** Erasing the unknown child at `i` from the half finished vector. */
  lemma {:induction false} EraseUnknown(kind: map<Node, NodeType>, s: seq<Node>, i: nat)
    requires NoDup(s) && i < |s| && s[i] in kind && kind[s[i]] == Unknown
    ensures Without(s[..i + 1] + Known(kind, s[i + 1..]), s[i]) == s[..i] + Known(kind, s[i..])
  {
    var h := s[..i + 1] + Known(kind, s[i + 1..]);
    KnownSplit(kind, s, i);
    assert h[i] == s[i];
    FirstIndexOf(h, i);
    assert h[..i] + h[i + 1..] == s[..i] + Known(kind, s[i + 1..]);
  }

  lemma {:induction false} FirstIndexOf(s: seq<Node>, i: nat)
    requires i < |s| && forall j :: 0 <= j < i ==> s[j] != s[i]
    ensures IndexOf(s, s[i]) == i
  {
    assert s[i] in s;
    if i < IndexOf(s, s[i]) {
      IndexOfIsFirst(s, s[i], i);
    }
  }

  /** The child that is looked at next is still in its place. */
  lemma {:induction false} HalfHere(f: Forest, at: set<Node>, t: Node, i: nat)
    requires Linked(f) && t in f.parent && i < |f.children[t]| && t !in at
    ensures var (g, c) := (HalfPruned(f, at, t, i + 1), f.children[t][i]);
      && c in f.parent && c in f.children[t] && c in g.parent && g.parent[c] == t && t in g.children
      && i < |g.children[t]| && g.children[t][i] == c
  {
    hide Known, IndexOf, Without;
    assert f.children[t][i] in f.children[t];
    FromMembers(f.children[t], i + 1, f.children[t][i]);
  }

  lemma {:induction false} HalfDelete(f: Forest, at: set<Node>, t: Node, i: nat)
    requires Linked(f) && t in f.parent && i < |f.children[t]| && t !in at
    requires f.children[t][i] in f.kind && f.kind[f.children[t][i]] == Unknown
    requires Linked(HalfPruned(f, at, t, i + 1))
    ensures i < |HalfPruned(f, at, t, i + 1).children[t]|
    ensures var (g, r) := DeleteAt(HalfPruned(f, at, t, i + 1), t, i);
      (r == Done ==> g == HalfPruned(f, at, t, i)) && (r != Done ==> r == LockedNode)
  {
    hide Known, NoDup, IndexOf, Without, Acyclic;
    var g, c, s := HalfPruned(f, at, t, i + 1), f.children[t][i], f.children[t];
    HalfHere(f, at, t, i);
    RefusalReasons(g, c, null);
    EraseUnknown(f.kind, s, i);
    HalfDetach(f, at, From(s, i + 1), t, g.children[t], c);
  }

  lemma {:induction false} HalfParentAt(f: Forest, at: set<Node>, done: set<Node>, t: Node, rest: seq<Node>, c: Node, rest': seq<Node>, n: Node)
    requires Closed(f) && c in f.parent && f.kind[c] == Unknown && n in f.parent
    ensures Half(f, at, done, t, rest).parent[c := null][n] == Half(f, at, {c} + done, t, rest').parent[n]
  {
    hide Known;
    assert n in {c} + done <==> n == c || n in done;
  }

  lemma {:induction false} HalfParent(f: Forest, at: set<Node>, done: set<Node>, t: Node, rest: seq<Node>, c: Node, rest': seq<Node>)
    requires Closed(f) && c in f.parent && f.kind[c] == Unknown
    ensures Half(f, at, done, t, rest).parent[c := null] == Half(f, at, {c} + done, t, rest').parent
  {
    HalfKeys(f, at, done, t, rest);
    HalfKeys(f, at, {c} + done, t, rest');
    hide Half;
    forall n | n in f.parent
      ensures Half(f, at, done, t, rest).parent[c := null][n] == Half(f, at, {c} + done, t, rest').parent[n]
    {
      HalfParentAt(f, at, done, t, rest, c, rest', n);
    }
  }

  lemma {:induction false} HalfKeys(f: Forest, at: set<Node>, done: set<Node>, t: Node, rest: seq<Node>)
    requires Closed(f)
    ensures Half(f, at, done, t, rest).parent.Keys == f.parent.Keys
  {
  }

  lemma {:induction false} HalfChildren(f: Forest, at: set<Node>, done: set<Node>, t: Node, rest: seq<Node>, done': set<Node>, rest': seq<Node>)
    requires Closed(f) && t in f.children
    ensures Half(f, at, done, t, rest).children[t := rest'] == Half(f, at, done', t, rest').children
  {
    hide Known;
  }

  lemma {:induction false} HalfDetach(f: Forest, at: set<Node>, done: set<Node>, t: Node, rest: seq<Node>, c: Node)
    requires Linked(f) && t in f.parent && c in f.parent && f.kind[c] == Unknown
    requires Closed(Half(f, at, done, t, rest)) && Half(f, at, done, t, rest).parent[c] == t
    ensures Detach(Half(f, at, done, t, rest), c) == Half(f, at, {c} + done, t, Without(rest, c))
  {
    hide Known, NoDup, IndexOf, Without;
    HalfParent(f, at, done, t, rest, c, Without(rest, c));
    HalfChildren(f, at, done, t, rest, {c} + done, Without(rest, c));
  }

  // ---- a known child: the recursive call

  lemma {:induction false} KnownTwice(kind: map<Node, NodeType>, s: seq<Node>)
    ensures Known(kind, Known(kind, s)) == Known(kind, s)
  {
    if s != [] {
      KnownTwice(kind, s[1..]);
      assert ([s[0]] + Known(kind, s[1..]))[1..] == Known(kind, s[1..]);
    }
  }

  /** Cutting off unknown nodes does not change what is kept. */
  lemma {:induction false} KeptSurvives(f: Forest, g: Forest, root: Node)
    requires OnlyCut(f, g) && Closed(f)
    requires forall n {:trigger g.parent[n]} :: n in f.parent && f.kind[n] != Unknown ==> g.parent[n] == f.parent[n]
    ensures KeptSet(g, root) == KeptSet(f, root)
  {
    forall n | n in f.parent ensures Kept(g, root, n) <==> Kept(f, root, n) {
      forall k: nat ensures KeptAt(g, root, n, k) <==> KeptAt(f, root, n, k) {
        KeptAtSurvives(f, g, root, n, k);
      }
    }
  }

  lemma {:induction false} KeptAtSurvives(f: Forest, g: Forest, root: Node, n: Node?, k: nat)
    requires f.kind == g.kind && f.parent.Keys == g.parent.Keys && Closed(f)
    requires forall n {:trigger g.parent[n]} :: n in f.parent && f.kind[n] != Unknown ==> g.parent[n] == f.parent[n]
    ensures KeptAt(g, root, n, k) <==> KeptAt(f, root, n, k)
    decreases k
  {
    if k > 0 && n != null && n in f.parent && f.kind[n] != Unknown {
      KeptAtSurvives(f, g, root, f.parent[n], k - 1);
    }
  }

  lemma {:induction false} HalfAgain(f: Forest, at: set<Node>, done: set<Node>, t: Node, rest: seq<Node>, c: Node, more: set<Node>)
    requires Linked(f) && t in f.parent && c in f.parent && f.kind[c] != Unknown && t !in more
    requires Closed(Half(f, at, done, t, rest))
    ensures Pruned(Half(f, at, done, t, rest), more) == Half(f, at + more, {c} + done, t, rest)
  {
    var g, h := Pruned(Half(f, at, done, t, rest), more), Half(f, at + more, {c} + done, t, rest);
    HalfAgainParent(f, at, done, t, rest, c, more);
    forall n | n in f.children ensures g.children[n] == h.children[n] {
      HalfAgainAt(f, at, done, t, rest, c, more, n);
    }
    assert g.children == h.children;
  }

  lemma {:induction false} HalfAgainParent(f: Forest, at: set<Node>, done: set<Node>, t: Node, rest: seq<Node>, c: Node, more: set<Node>)
    requires Closed(f) && c in f.parent && f.kind[c] != Unknown && Closed(Half(f, at, done, t, rest))
    ensures Pruned(Half(f, at, done, t, rest), more).parent == Half(f, at + more, {c} + done, t, rest).parent
  {
    hide Known;
    var g, h := Pruned(Half(f, at, done, t, rest), more), Half(f, at + more, {c} + done, t, rest);
    forall n | n in f.parent ensures g.parent[n] == h.parent[n] {
      assert n in {c} + done <==> n == c || n in done;
    }
  }

  lemma {:induction false} HalfAgainAt(f: Forest, at: set<Node>, done: set<Node>, t: Node, rest: seq<Node>, c: Node, more: set<Node>, n: Node)
    requires Linked(f) && t !in more && Closed(Half(f, at, done, t, rest)) && n in f.children
    ensures Pruned(Half(f, at, done, t, rest), more).children[n] == Half(f, at + more, {c} + done, t, rest).children[n]
  {
    KnownTwice(f.kind, f.children[n]);
  }

  lemma {:induction false} KeepKnown(kind: map<Node, NodeType>, s: seq<Node>, i: nat)
    requires i < |s| && s[i] in kind && kind[s[i]] != Unknown
    ensures s[..i + 1] + Known(kind, s[i + 1..]) == s[..i] + Known(kind, s[i..])
  {
    hide Known;
    KnownSplit(kind, s, i);
    assert s[..i + 1] == s[..i] + [s[i]];
  }

  lemma {:induction false} HalfRecurse(f: Forest, at: set<Node>, t: Node, i: nat)
    requires Linked(f) && NoOwnAncestor(f.parent) && t in f.parent && i < |f.children[t]|
    requires f.children[t][i] in f.parent && f.kind[f.children[t][i]] != Unknown
    requires OnlyCut(f, HalfPruned(f, at, t, i + 1))
    ensures Cleaned(HalfPruned(f, at, t, i + 1), f.children[t][i])
         == HalfPruned(f, at + KeptSet(f, f.children[t][i]), t, i)
  {
    hide Known, KeptAt, KeptSet, Pruned, NoDup, NoOwnAncestor;
    var g, c := HalfPruned(f, at, t, i + 1), f.children[t][i];
    assert c in f.children[t];
    KeptSurvives(f, g, c);
    NotBelowChild(f, t, c);
    var s := f.children[t];
    KeepKnown(f.kind, s, i);
    HalfAgain(f, at, From(s, i + 1), t, g.children[t], c, KeptSet(f, c));
  }

  // ---- the end of the loop

  /** What is kept below `t` is kept below one of its known children. */
  lemma {:induction false} KeptBelowChild(f: Forest, t: Node, n: Node?, k: nat) returns (c: Node)
    requires Linked(f) && t in f.parent && KeptAt(f, t, n, k) && k > 0
    ensures c in f.parent && c in f.children[t] && f.kind[c] != Unknown && KeptAt(f, c, n, k - 1)
    decreases k
  {
    if k == 1 {
      c := n;
      assert f.parent[n] == t;
      assert c in f.children[f.parent[c]];
    } else {
      c := KeptBelowChild(f, t, f.parent[n], k - 1);
    }
  }

  lemma {:induction false} KeptAbove(f: Forest, t: Node, c: Node, n: Node?, k: nat)
    requires Linked(f) && c in f.parent && f.parent[c] == t && f.kind[c] != Unknown && KeptAt(f, c, n, k)
    ensures KeptAt(f, t, n, k + 1)
    decreases k
  {
    if k > 0 {
      KeptAbove(f, t, c, f.parent[n], k - 1);
    }
  }

  lemma {:induction false} KeptFromIncludes(f: Forest, t: Node, i: nat, j: nat)
    requires Linked(f) && t in f.parent && i <= j < |f.children[t]|
    requires f.children[t][j] in f.kind && f.kind[f.children[t][j]] != Unknown
    ensures KeptSet(f, f.children[t][j]) <= KeptFrom(f, t, i)
    decreases j - i
  {
    if i < j {
      KeptFromIncludes(f, t, i + 1, j);
    }
  }

  lemma {:induction false} KeptFromIsKept(f: Forest, t: Node, i: nat)
    requires Linked(f) && t in f.parent && i <= |f.children[t]|
    ensures KeptFrom(f, t, i) <= KeptSet(f, t)
    decreases |f.children[t]| - i
  {
    if i < |f.children[t]| {
      var c := f.children[t][i];
      assert c in f.children[t];
      KeptFromIsKept(f, t, i + 1);
      if f.kind[c] != Unknown {
        forall n | n in KeptSet(f, c) ensures n in KeptSet(f, t) {
          var k: nat :| KeptAt(f, c, n, k);
          KeptAbove(f, t, c, n, k);
        }
      }
    }
  }

  lemma {:induction false} KeptIsBelow(f: Forest, t: Node)
    requires Linked(f) && t in f.parent
    ensures KeptSet(f, t) == {t} + KeptFrom(f, t, 0)
  {
    KeptFromIsKept(f, t, 0);
    assert KeptAt(f, t, t, 0);
    forall n | n in KeptSet(f, t) && n != t ensures n in KeptFrom(f, t, 0) {
      var k: nat :| KeptAt(f, t, n, k);
      var c := KeptBelowChild(f, t, n, k);
      var j :| 0 <= j < |f.children[t]| && f.children[t][j] == c;
      KeptFromIncludes(f, t, 0, j);
    }
  }

  lemma {:induction false} HalfEndParent(f: Forest, t: Node, at: set<Node>, done: set<Node>, rest: seq<Node>)
    requires Closed(f) && forall n {:trigger f.parent[n]} :: n in f.parent ==> (n in done <==> f.parent[n] == t)
    ensures Half(f, at, done, t, rest).parent == Pruned(f, {t} + at).parent
  {
    hide Known;
  }

  lemma {:induction false} HalfEndChildren(f: Forest, t: Node, at: set<Node>, done: set<Node>)
    requires Closed(f) && t in f.children
    ensures Half(f, at, done, t, Known(f.kind, f.children[t])).children == Pruned(f, {t} + at).children
  {
    hide Known;
  }

  lemma {:induction false} HalfEnd(f: Forest, t: Node)
    requires Linked(f) && t in f.parent
    ensures HalfPruned(f, KeptFrom(f, t, 0), t, 0) == Cleaned(f, t)
  {
    hide Known, KeptSet, KeptFrom, Half, Pruned, From;
    KeptIsBelow(f, t);
    var s, at := f.children[t], KeptFrom(f, t, 0);
    assert s[0..] == s && s[..0] + Known(f.kind, s) == Known(f.kind, s);
    forall n | n in f.parent ensures n in From(s, 0) <==> f.parent[n] == t {
      FromMembers(s, 0, n);
      assert f.parent[n] == t ==> n in f.children[f.parent[n]];
    }
    HalfEndParent(f, t, at, From(s, 0), Known(f.kind, s));
    HalfEndChildren(f, t, at, From(s, 0));
    HalfKeeps(f, at, From(s, 0), t, Known(f.kind, s), {t} + at);
  }

  lemma {:induction false} HalfKeeps(f: Forest, at: set<Node>, done: set<Node>, t: Node, rest: seq<Node>, kept: set<Node>)
    requires Closed(f)
    ensures var g, h := Half(f, at, done, t, rest), Pruned(f, kept);
      g.kind == h.kind && g.lock == h.lock
  {
    hide Known;
  }

  // ------------------------------------------------------------------
  //  The routine
  // ------------------------------------------------------------------

  /** No node of the tree is locked. */
  ghost predicate Unlocked(f: Forest, t: Node) {
    forall n {:trigger f.lock[n]} :: n in f.parent && n in f.lock && Under(f.parent, n, t) ==> f.lock[n] == 0
  }

  lemma {:induction false} UnlockedBelow(f: Forest, g: Forest, t: Node, c: Node)
    requires Linked(f) && OnlyCut(f, g) && c in f.parent && f.parent[c] == t && Unlocked(f, t)
    ensures Unlocked(g, c)
  {
    forall n | n in g.parent && Under(g.parent, n, c) ensures Under(f.parent, n, t) {
      var k: nat :| Up(g.parent, n, k) == c;
      CutUp(f.parent, g.parent, n, k);
      UpAdd(f.parent, n, k, 1);
      assert Up(f.parent, c, 1) == t;
      assert Up(f.parent, n, k + 1) == t;
    }
  }

  lemma {:induction false} DeleteOnlyCuts(f: Forest, t: Node, i: nat)
    requires Linked(f) && t in f.parent && i < |f.children[t]|
    ensures OnlyCut(f, DeleteAt(f, t, i).0)
  {
    assert f.children[t][i] in f.children[t];
    DeleteAtKeepsLinks(f, t, i);
  }

  lemma {:induction false} UnlockedDelete(f: Forest, g: Forest, t: Node, i: nat)
    requires Linked(f) && OnlyCut(f, g) && t in f.parent && i < |g.children[t]| && Unlocked(f, t)
    ensures DeleteAt(g, t, i).1 != LockedNode
  {
    var c := g.children[t][i];
    assert c in g.children[t];
    RefusalReasons(g, c, null);
    assert Up(f.parent, t, 0) == t && Up(f.parent, c, 1) == t;
    assert Under(f.parent, t, t) && Under(f.parent, c, t);
  }

  lemma {:induction false} OnlyCutTwice(f: Forest, g: Forest, h: Forest)
    requires OnlyCut(f, g) && OnlyCut(g, h)
    ensures OnlyCut(f, h)
  {
  }

  lemma {:induction false} DeleteSafe(f: Forest, g: Forest, t: Node, i: nat)
    requires Linked(f) && OnlyCut(f, g) && t in f.parent && i < |g.children[t]|
    ensures OnlyCut(f, DeleteAt(g, t, i).0)
    ensures Unlocked(f, t) ==> DeleteAt(g, t, i).1 != LockedNode
  {
    DeleteOnlyCuts(g, t, i);
    OnlyCutTwice(f, g, DeleteAt(g, t, i).0);
    if Unlocked(f, t) { UnlockedDelete(f, g, t, i); }
  }

  /** The turn that deletes. */
  lemma {:induction false} DeleteTurn(f: Forest, t: Node, i: nat)
    requires Linked(f) && NoOwnAncestor(f.parent) && t in f.parent && i < |f.children[t]|
    requires f.children[t][i] in f.kind && f.kind[f.children[t][i]] == Unknown
    requires OnlyCut(f, HalfPruned(f, KeptFrom(f, t, i + 1), t, i + 1))
    ensures var (g, r) := DeleteAt(HalfPruned(f, KeptFrom(f, t, i + 1), t, i + 1), t, i);
      && OnlyCut(f, g) && (r == Done || r == LockedNode)
      && (r == Done ==> g == HalfPruned(f, KeptFrom(f, t, i), t, i))
      && (Unlocked(f, t) ==> r == Done)
  {
    hide Known, Half, Unlocked;
    assert KeptFrom(f, t, i) == KeptFrom(f, t, i + 1);
    var g := HalfPruned(f, KeptFrom(f, t, i + 1), t, i + 1);
    NotInKeptFrom(f, t, i + 1);
    HalfDelete(f, KeptFrom(f, t, i + 1), t, i);
    DeleteSafe(f, g, t, i);
  }

  /** What the turn that recurses needs. */
  lemma {:induction false} RecurseTurn(f: Forest, t: Node, i: nat, h: nat)
    requires Linked(f) && Acyclic(f.parent) && NoOwnAncestor(f.parent) && t in f.parent && i < |f.children[t]|
    requires HeightBelow(f.parent, t, h) && f.children[t][i] in f.kind && f.kind[f.children[t][i]] != Unknown
    requires OnlyCut(f, HalfPruned(f, KeptFrom(f, t, i + 1), t, i + 1))
    ensures var (g, c) := (HalfPruned(f, KeptFrom(f, t, i + 1), t, i + 1), f.children[t][i]);
      && Acyclic(g.parent) && h > 0 && HeightBelow(g.parent, c, h - 1)
      && Cleaned(g, c) == HalfPruned(f, KeptFrom(f, t, i), t, i)
      && (Unlocked(f, t) ==> Unlocked(g, c))
  {
    var g, c := HalfPruned(f, KeptFrom(f, t, i + 1), t, i + 1), f.children[t][i];
    assert c in f.children[t];
    HalfRecurse(f, KeptFrom(f, t, i + 1), t, i);
    CutKeepsShape(f, g);
    ChildHeight(f, t, c, h);
    if Unlocked(f, t) { UnlockedBelow(f, g, t, c); }
  }

  /** Deletes the unknown nodes below `t`, the last ones first. A locked node stops it with
      an exception; then only some links are cut. */
  method CleanTree(t: Node, ghost S: set<Node>, ghost h: nat) returns (r: Outcome)
    requires t in S && Linked(Snapshot(S)) && Acyclic(Snapshot(S).parent) && HeightBelow(Snapshot(S).parent, t, h)
    modifies S`parent, S`children
    ensures OnlyCut(old(Snapshot(S)), Snapshot(S))
    ensures r == Done || r == LockedNode
    ensures r == Done ==> Snapshot(S) == Cleaned(old(Snapshot(S)), t)
    ensures Unlocked(old(Snapshot(S)), t) ==> r == Done
    decreases h
  {
    ghost var f := Snapshot(S);
    AcyclicMeansNoOwnAncestor(f.parent);
    HalfStart(f, t);
    var idx := |t.children|;
    while idx > 0
      invariant 0 <= idx <= |f.children[t]|
      invariant Snapshot(S) == HalfPruned(f, KeptFrom(f, t, idx), t, idx) && OnlyCut(f, Snapshot(S))
    {
      idx := idx - 1;
      r := CleanChild(t, idx, S, h, f);
      if r != Done {
        return;
      }
    }
    HalfEnd(f, t);
    return Done;
  }

  /** One turn of the loop. `f` is the forest the loop began with. */
  method CleanChild(t: Node, idx: nat, ghost S: set<Node>, ghost h: nat, ghost f: Forest) returns (r: Outcome)
    requires t in S && Linked(f) && Acyclic(f.parent) && NoOwnAncestor(f.parent) && HeightBelow(f.parent, t, h)
    requires t in f.parent && idx < |f.children[t]|
    requires Snapshot(S) == HalfPruned(f, KeptFrom(f, t, idx + 1), t, idx + 1) && OnlyCut(f, Snapshot(S))
    modifies S`parent, S`children
    ensures OnlyCut(f, Snapshot(S))
    ensures r == Done || r == LockedNode
    ensures r == Done ==> Snapshot(S) == HalfPruned(f, KeptFrom(f, t, idx), t, idx)
    ensures Unlocked(f, t) ==> r == Done
    decreases h, 0
  {
    ghost var g := Snapshot(S);
    assert g.children[t] == t.children;
    assert t.children[idx] == f.children[t][idx] && t.children[idx] in f.children[t];
    var child := t.children[idx];
    assert g.kind[child] == child.kind;
    if child.kind == Unknown {
      DeleteTurn(f, t, idx);
      r := t.DeleteChild(idx, S);
    } else {
      RecurseTurn(f, t, idx, h);
      r := CleanTree(child, S, h - 1);
      OnlyCutTwice(f, g, Snapshot(S));
    }
  }
}
