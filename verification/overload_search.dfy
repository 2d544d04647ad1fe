/** The search for the best overload, on the nodes of the tree: the losing match nodes are deleted while
    the parameter list is scanned. */
module OverloadSearch {
  import opened Sequences
  import opened OrderedMaps
  import opened Overload
  import opened NodeTree
  import opened ForestLaws
  import opened OverloadTies
  import ClassHierarchy
  import ClassMember

  /** The depths kept in the match nodes. */
  type Depths = map<Node, seq<Depth>>

  function DepthsOf(depths: Depths, n: Node): seq<Depth> {
    if n in depths then depths[n] else []
  }

  ghost function View(kind: map<Node, NodeType>, depths: Depths, n: Node): Child {
    if n in kind && kind[n] == NodeTree.ParamMatch then Overload.ParamMatch(n, DepthsOf(depths, n)) else Argument(n)
  }

  ghost function Views(kind: map<Node, NodeType>, depths: Depths, ns: seq<Node>): (r: seq<Child>)
    ensures |r| == |ns| && forall i :: 0 <= i < |ns| ==> r[i] == View(kind, depths, ns[i])
  {
    seq(|ns|, i requires 0 <= i < |ns| => View(kind, depths, ns[i]))
  }

  /** The children of the parameter list. */
  ghost function ListOf(f: Forest, depths: Depths, params: Node): seq<Child>
    requires params in f.children
  {
    Views(f.kind, depths, f.children[params])
  }

  /** Nothing keeps children of `params` from being deleted. */
  ghost predicate Free(f: Forest, params: Node)
    requires Closed(f) && params in f.parent
  {
    f.lock[params] == 0 && forall c :: c in f.children[params] ==> f.lock[c] == 0 && CanBeChild(f.kind[c])
  }

  // ------------------------------------------------------------------
  //  One deletion
  // ------------------------------------------------------------------

  lemma {:induction false} ViewsNoDup(kind: map<Node, NodeType>, depths: Depths, ns: seq<Node>)
    requires NoDup(ns)
    ensures NoDup(Views(kind, depths, ns))
  {
    var r := Views(kind, depths, ns);
    forall i, j | 0 <= i < j < |r| ensures r[i] != r[j] {
      assert r[i].node == ns[i] && r[j].node == ns[j];
    }
  }

  lemma {:induction false} ViewsCut(kind: map<Node, NodeType>, depths: Depths, ns: seq<Node>, i: nat)
    requires NoDup(ns) && i < |ns|
    ensures Views(kind, depths, Without(ns, ns[i])) == Cut(Views(kind, depths, ns), i)
  {
    IndexOfAt(ns, i);
  }

  lemma {:induction false} ViewOf(kind: map<Node, NodeType>, depths: Depths, ns: seq<Node>, c: Child)
    requires c in Views(kind, depths, ns)
    ensures c.node in ns && c == View(kind, depths, c.node)
  {
    var i :| 0 <= i < |ns| && Views(kind, depths, ns)[i] == c;
    assert c == View(kind, depths, ns[i]);
  }

  lemma {:induction false} InViews(kind: map<Node, NodeType>, depths: Depths, ns: seq<Node>, n: Node)
    ensures n in ns <==> View(kind, depths, n) in Views(kind, depths, ns)
  {
    var r := Views(kind, depths, ns);
    if n in ns {
      var i :| 0 <= i < |ns| && ns[i] == n;
      assert r[i] == View(kind, depths, n);
    }
    if View(kind, depths, n) in r {
      ViewOf(kind, depths, ns, View(kind, depths, n));
    }
  }

  lemma {:induction false} StillChild(f0: Forest, f: Forest, params: Node, c: Node)
    requires Linked(f0) && Linked(f) && OnlyDeleted(f0, f, params) && params in f.parent && c in f.children[params]
    ensures c in f0.children[params] && c in f0.parent && f0.parent[c] == params && f.parent[c] == params
  {
    assert f.parent[c] == params;
    assert c in f.parent;
  }

  /** Deleting a child cuts the list there, or is refused and changes nothing. */
  lemma {:induction false} DeleteStep(f0: Forest, f: Forest, depths: Depths, params: Node, idx: nat)
    requires Linked(f0) && Linked(f) && OnlyDeleted(f0, f, params) && params in f.parent && idx < |f.children[params]|
    ensures var (g, r) := DeleteAt(f, params, idx);
      && Linked(g) && OnlyDeleted(f0, g, params) && params in g.children
      && (r == Done ==> ListOf(g, depths, params) == Cut(ListOf(f, depths, params), idx) && |g.children[params]| == |f.children[params]| - 1)
      && (r != Done ==> g == f && (r == LockedNode || r == IncompatibleType) && !Free(f0, params))
  {
    hide NoDup, IndexOf, Without, Views, View, Cut;
    var c := f.children[params][idx];
    assert c in f.children[params];
    StillChild(f0, f, params, c);
    DeleteAtKeepsLinks(f, params, idx);
    RefusalReasons(f, c, null);
    ViewsCut(f.kind, depths, f.children[params], idx);
    var (g, r) := DeleteAt(f, params, idx);
    if r == Done {
      assert g == Detach(f, c);
    }
  }

  // ------------------------------------------------------------------
  //  The state of the scan
  // ------------------------------------------------------------------

  ghost function Candidate(depths: Depths, n: Node?): Option<Child> {
    if n == null then None else Some(Overload.ParamMatch(n, DepthsOf(depths, n)))
  }

  /** The variables of the scan are those of `x`. */
  ghost predicate Shows(depths: Depths, x: Scan, idx: nat, prev: int, best: Node?, found: bool) {
    x.idx == idx && x.prev == prev && x.best == Candidate(depths, best) && x.found == found
  }

  /** From the forest `f0` at the start the scan has come to `f`, and has seen `i` children. */
  ghost predicate Going(f0: Forest, f: Forest, depths: Depths, params: Node, inClass: bool, i: nat, x: Scan) {
    && Linked(f0) && Linked(f) && params in f0.parent && OnlyDeleted(f0, f, params)
    && x.children == ListOf(f, depths, params) && Scanned(inClass, ListOf(f0, depths, params), i, x)
  }

  lemma {:induction false} GoingLists(f0: Forest, f: Forest, depths: Depths, params: Node, inClass: bool, i: nat, x: Scan)
    requires Going(f0, f, depths, params, inClass, i, x)
    ensures params in f.children && params in f0.children && |x.children| == |f.children[params]|
    ensures NoDup(ListOf(f0, depths, params)) && NoDup(x.children)
    ensures x.idx < |x.children| ==> x.children[x.idx] == View(f.kind, depths, f.children[params][x.idx])
  {
    ViewsNoDup(f0.kind, depths, f0.children[params]);
    ViewsNoDup(f.kind, depths, f.children[params]);
  }

  /** The child at `idx`, in the tree and in the list. */
  lemma {:induction false} Looking(f0: Forest, S: set<Node>, depths: Depths, params: Node, inClass: bool, i: nat, x: Scan)
    requires params in S && Going(f0, Snapshot(S), depths, params, inClass, i, x)
    ensures params in f0.children && params in f0.parent && Closed(f0) && Closed(Snapshot(S)) && |x.children| == |params.children|
    ensures NoDup(ListOf(f0, depths, params)) && NoDup(x.children) && Scanned(inClass, ListOf(f0, depths, params), i, x)
    ensures x.idx < |params.children| ==>
      var n := params.children[x.idx];
      && n in S && x.children[x.idx] == if n.kind == NodeTree.ParamMatch then Overload.ParamMatch(n, DepthsOf(depths, n)) else Argument(n)
  {
    var f := Snapshot(S);
    GoingLists(f0, f, depths, params, inClass, i, x);
    assert f.children[params] == params.children;
    if x.idx < |params.children| {
      assert params.children[x.idx] in f.children[params];
    }
  }

  /** The two match nodes of the next comparison, and its verdict. */
  lemma {:induction false} NextDuel(f0: Forest, f: Forest, h: ClassHierarchy.Hierarchy, cls: map<Node, ClassHierarchy.Cls>,
                                    depths: Depths, params: Node, i: nat, x: Scan, k: nat)
    requires Going(f0, f, depths, params, CallInClass(f0, cls, params), i, x) && Grounded(f0.parent, params, k)
    requires x.idx < |x.children| && x.children[x.idx].ParamMatch? && x.best.Some?
    ensures i < |ListOf(f0, depths, params)| && x.best.value.ParamMatch?
    ensures var (b, m) := (x.best.value, x.children[x.idx]);
      && b.node in f.parent && m.node in f.parent && Grounded(f.parent, b.node, k + 1) && Grounded(f.parent, m.node, k + 1)
      && Duel(f, h, cls, b, m) ==
         if Compare(b, m) != Undecided then Compare(b, m)
         else if CallInClass(f0, cls, params) && !Loose(ListOf(f0, depths, params)[..i]) then KeepBest else Undecided
  {
    hide Scanned, Compare, Loose, Duel, CallInClass, View, NoDup;
    var s, b, m := ListOf(f0, depths, params), x.best.value, x.children[x.idx];
    ScanNext(CallInClass(f0, cls, params), s, i, x);
    BestIsOfCall(f0, f, depths, params, b);
    ChildIsOfCall(f, depths, params, m);
    SameAbove(f0, f, params, k);
    SameCall(f0, f, cls, params, k);
    DuelIs(f, h, cls, params, b, m);
  }

  lemma {:induction false} Facing(f0: Forest, S: set<Node>, h: ClassHierarchy.Hierarchy, cls: map<Node, ClassHierarchy.Cls>,
                                  depths: Depths, params: Node, i: nat, x: Scan, best: Node, k: nat)
    requires params in S && Going(f0, Snapshot(S), depths, params, CallInClass(f0, cls, params), i, x) && Grounded(f0.parent, params, k)
    requires x.idx < |params.children| && params.children[x.idx].kind == NodeTree.ParamMatch && x.best == Candidate(depths, best)
    ensures params in f0.children && params in f0.parent && Closed(f0) && Closed(Snapshot(S)) && |x.children| == |params.children|
    ensures var s, n, b := ListOf(f0, depths, params), params.children[x.idx], x.best.value;
      var m := x.children[x.idx];
      && NoDup(s) && NoDup(x.children) && Scanned(CallInClass(f0, cls, params), s, i, x) && i < |s|
      && b == Overload.ParamMatch(best, DepthsOf(depths, best)) && m == Overload.ParamMatch(n, DepthsOf(depths, n))
      && best in S && n in S && Grounded(Snapshot(S).parent, best, k + 1) && Grounded(Snapshot(S).parent, n, k + 1)
      && Duel(Snapshot(S), h, cls, b, m) ==
         if Compare(b, m) != Undecided then Compare(b, m)
         else if CallInClass(f0, cls, params) && !Loose(s[..i]) then KeepBest else Undecided
  {
    hide Scanned, Compare, Loose, Duel, CallInClass, View, NoDup, Going, Linked, Grounded, ListOf;
    Looking(f0, S, depths, params, CallInClass(f0, cls, params), i, x);
    NextDuel(f0, Snapshot(S), h, cls, depths, params, i, x, k);
  }

  lemma {:induction false} ChildIsOfCall(f: Forest, depths: Depths, params: Node, m: Child)
    requires Linked(f) && params in f.parent && m in ListOf(f, depths, params) && m.ParamMatch?
    ensures OfCall(f, params, m) && f.parent[m.node] == params
  {
    ViewOf(f.kind, depths, f.children[params], m);
  }

  lemma {:induction false} BestIsOfCall(f0: Forest, f: Forest, depths: Depths, params: Node, b: Child)
    requires Linked(f0) && Linked(f) && params in f0.parent && OnlyDeleted(f0, f, params)
    requires b in ListOf(f0, depths, params) && b.ParamMatch?
    ensures OfCall(f, params, b) && (f.parent[b.node] == params <==> b in ListOf(f, depths, params))
  {
    ChildIsOfCall(f0, depths, params, b);
    ViewOf(f0.kind, depths, f0.children[params], b);
    InViews(f.kind, depths, f.children[params], b.node);
    assert b.node in f.children[params] <==> f.parent[b.node] == params;
  }

  // ------------------------------------------------------------------
  //  The code
  // ------------------------------------------------------------------

  /** What `select_best_func()` did to the forest `f`, and what it answers. */
  ghost predicate Chosen(f: Forest, g: Forest, depths: Depths, cls: map<Node, ClassHierarchy.Cls>, params: Node, r: Outcome, found: bool, best: Node?)
    requires Closed(f) && params in f.parent
  {
    var s := ListOf(f, depths, params);
    && Linked(g) && OnlyDeleted(f, g, params)
    && (r == InternalError <==> Best(s) == None)
    && (r == InternalError ==> g == f)
    && (r != Done && r != InternalError ==> (r == LockedNode || r == IncompatibleType) && !Free(f, params))
    && (r == Done ==>
          && best != null && best in g.parent && params in g.children && Best(s) == Candidate(depths, best)
          && found == AllDecided(CallInClass(f, cls, params), s)
          && g.parent[best] == (if Loose(s) then null else params)
          && (ListOf(g, depths, params) == Tidy(s, Best(s)) <==> Takes(s) <= 1)
          && (Takes(s) >= 1 && ArgumentsFirst(s) ==> ListOf(g, depths, params) == Tidy(s, FirstWinner(s))))
  }

  lemma {:induction false} ScanIsDone(f0: Forest, f: Forest, depths: Depths, cls: map<Node, ClassHierarchy.Cls>, params: Node, i: nat, x: Scan, best: Node?)
    requires Going(f0, f, depths, params, CallInClass(f0, cls, params), i, x) && x.idx == |x.children|
    requires x.best == Candidate(depths, best) && (best == null ==> f == f0)
    ensures Chosen(f0, f, depths, cls, params, if best == null then InternalError else Done, x.found, best)
  {
    hide Scanned, Best, Takes, AllDecided, Tidy, Loose, FirstWinner, ArgumentsFirst, CallInClass, NoDup, Linked, OnlyDeleted, ListOf, OfCall;
    GoingLists(f0, f, depths, params, CallInClass(f0, cls, params), i, x);
    var s := ListOf(f0, depths, params);
    ScanEnd(CallInClass(f0, cls, params), s, i, x);
    if best != null {
      BestIsOfCall(f0, f, depths, params, x.best.value);
    }
  }

  class Compiler {
    const h: ClassHierarchy.Hierarchy
    const cls: map<Node, ClassHierarchy.Cls>
    const depths: Depths

    constructor (h: ClassHierarchy.Hierarchy, cls: map<Node, ClassHierarchy.Cls>, depths: Depths)
      ensures this.h == h && this.cls == cls && this.depths == depths
    {
      this.h, this.cls, this.depths := h, cls, depths;
    }

    /** The classes of the tree are those of the hierarchy. */
    ghost predicate Ready(S: set<Node>)
      reads S`kind
    {
      ClassHierarchy.Sound(h, true) && ClassMember.AllClasses(h, cls, S)
    }

    method BestParamMatchDerivedFrom(best: Node, candidate: Node, ghost S: set<Node>, ghost k: nat) returns (v: Verdict)
      requires Ready(S) && Closed(Snapshot(S)) && best in S && candidate in S
      requires Grounded(Snapshot(S).parent, best, k) && Grounded(Snapshot(S).parent, candidate, k)
      ensures var f := Snapshot(S);
        && (v == KeepBest <==> ClassMember.ObjectsDerive(f, h, cls, best, candidate))
        && (v == Undecided <==> !ClassMember.ObjectsDerive(f, h, cls, best, candidate) && !ClassMember.ObjectsDerive(f, h, cls, candidate, best))
    {
      hide ClassMember.ObjectsDerive, ClassHierarchy.Sound, Closed;
      var derived, theSuper := ClassMember.AreObjectsDerivedFromOneAnother(h, cls, best, candidate, S, k);
      if derived {
        return KeepBest;
      }
      derived, theSuper := ClassMember.AreObjectsDerivedFromOneAnother(h, cls, candidate, best, S, k);
      v := if derived then TakeMatch else Undecided;
    }

    /** `best_param_match()` with its tie-break; the answer says which one is best, and
        `Undecided` that both have the same prototype. */
    method BestParamMatch(best: Node, candidate: Node, ghost S: set<Node>, ghost k: nat) returns (v: Verdict)
      requires Ready(S) && Closed(Snapshot(S)) && best in S && candidate in S
      requires Grounded(Snapshot(S).parent, best, k) && Grounded(Snapshot(S).parent, candidate, k)
      ensures v == Duel(Snapshot(S), h, cls, Overload.ParamMatch(best, DepthsOf(depths, best)), Overload.ParamMatch(candidate, DepthsOf(depths, candidate)))
    {
      hide ClassMember.ObjectsDerive, ClassHierarchy.Sound, Closed, Grounded, Snapshot;
      var b, m := DepthsOf(depths, best), DepthsOf(depths, candidate);
      if |b| == 0 {
        if |m| == 0 {
          v := BestParamMatchDerivedFrom(best, candidate, S, k);
          return;
        }
        return TakeMatch;
      }
      if |m| == 0 {
        return KeepBest;
      }
      var bMore, mMore := 0, 0;
      var idx := 0;
      while idx < |b| && idx < |m|
        invariant 0 <= idx <= |b| && idx <= |m| && bMore >= 0 && mMore >= 0
        invariant bMore != 0 <==> exists i :: 0 <= i < idx && b[i] < m[i]
        invariant mMore != 0 <==> exists i :: 0 <= i < idx && m[i] < b[i]
      {
        var r := (b[idx] as int) - (m[idx] as int);
        if r < 0 {
          bMore := bMore + 1;
        } else if r > 0 {
          mMore := mMore + 1;
        }
        idx := idx + 1;
      }
      assert bMore != 0 <==> Shallower(b, m);
      assert mMore != 0 <==> Shallower(m, b);
      if (bMore != 0) != (mMore == 0) {
        v := BestParamMatchDerivedFrom(best, candidate, S, k);
        return;
      }
      v := if mMore != 0 then TakeMatch else KeepBest;
    }

    /** Compares the best candidate with the one at `idx`, and deletes a child. */
    method KeepOne(params: Node, idx: nat, prev0: int, best0: Node, found0: bool, ghost x: Scan,
                   ghost f0: Forest, ghost i: nat, ghost S: set<Node>, ghost k: nat)
      returns (r: Outcome, best: Node, prev: int, found: bool, ghost y: Scan)
      requires params in S && Ready(S) && idx < |params.children| && params.children[idx].kind == NodeTree.ParamMatch
      requires Grounded(f0.parent, params, k) && Shows(depths, x, idx, prev0, best0, found0)
      requires Going(f0, Snapshot(S), depths, params, CallInClass(f0, cls, params), i, x)
      modifies S`parent, S`children
      ensures params in f0.parent && Closed(f0)
      ensures r == Done ==> |params.children| == |old(params.children)| - 1 && Shows(depths, y, idx, prev, best, found)
      ensures r == Done ==> Going(f0, Snapshot(S), depths, params, CallInClass(f0, cls, params), i + 1, y)
      ensures r != Done ==> Linked(Snapshot(S)) && OnlyDeleted(f0, Snapshot(S), params) && !Free(f0, params) && (r == LockedNode || r == IncompatibleType)
    {
      hide AllDecided, Compare, Cut, NoDup, Scanned, Loose, CallInClass, Duel, Linked, Closed, OnlyDeleted, ListOf, Grounded, Ready, Free, Going, Snapshot;
      ghost var f, inClass := Snapshot(S), CallInClass(f0, cls, params);
      var candidate := params.children[idx];
      Facing(f0, S, h, cls, depths, params, i, x, best0, k);
      best, prev, found := best0, prev0, found0;
      var v := BestParamMatch(best, candidate, S, k + 1);
      if v == Undecided {
        found := false;
      }
      if v == TakeMatch {
        y := ScanTake(inClass, ListOf(f0, depths, params), i, x);
        r := DeleteOne(params, prev, f0, inClass, i, x, y, S);
        best := candidate;
        prev := idx;
      } else {
        y := x.(children := Cut(x.children, idx), found := found);
        ScanKeep(inClass, ListOf(f0, depths, params), i, x, y);
        r := DeleteOne(params, idx, f0, inClass, i, x, y, S);
      }
    }

    /** The deletion takes the scan from `x` to `y`. */
    method DeleteOne(params: Node, at: nat, ghost f0: Forest, ghost inClass: bool, ghost i: nat, ghost x: Scan, ghost y: Scan, ghost S: set<Node>)
      returns (r: Outcome)
      requires params in S && Going(f0, Snapshot(S), depths, params, inClass, i, x) && at < |x.children| && params in f0.children
      requires Scanned(inClass, ListOf(f0, depths, params), i + 1, y) && y.children == Cut(x.children, at)
      modifies S`parent, S`children
      ensures params in Snapshot(S).children && params in f0.parent && Closed(f0)
      ensures r == Done ==> |params.children| == |old(params.children)| - 1 && Going(f0, Snapshot(S), depths, params, inClass, i + 1, y)
      ensures r != Done ==> Linked(Snapshot(S)) && OnlyDeleted(f0, Snapshot(S), params) && !Free(f0, params) && (r == LockedNode || r == IncompatibleType)
    {
      hide Cut, NoDup, Scanned, Linked, OnlyDeleted, Views, View, DeleteAt, Free;
      Looking(f0, S, depths, params, inClass, i, x);
      DeleteStep(f0, Snapshot(S), depths, params, at);
      r := params.DeleteChild(at, S);
    }

    /** Selects the best candidate, and deletes the others while it scans. */
    method SelectBestFunc(params: Node?, ghost S: set<Node>, ghost k: nat) returns (r: Outcome, found: bool, best: Node?)
      requires (params != null ==> params in S) && Ready(S) && Linked(Snapshot(S)) && Grounded(Snapshot(S).parent, params, k)
      modifies S`parent, S`children
      ensures Closed(old(Snapshot(S))) && (params != null ==> params in old(Snapshot(S)).parent)
      ensures if params == null then r == InternalError && Snapshot(S) == old(Snapshot(S))
              else Chosen(old(Snapshot(S)), Snapshot(S), depths, cls, params, r, found, best)
    {
      hide AllDecided, Compare, Cut, NoDup, Scanned, Loose, CallInClass, Linked, Closed, OnlyDeleted, ListOf, Grounded, Ready, Free, Going, Snapshot, Chosen;
      ghost var f0, i := Snapshot(S), 0;
      if params == null {
        LinkedClosed(f0);
        return InternalError, false, null;
      }
      ghost var inClass := CallInClass(f0, cls, params);
      InTree(S, params);
      StartGoing(f0, depths, params, inClass);
      found := true;
      best := null;
      var maxChildren := |params.children|;
      var idx, prev := 0, -1;
      ghost var x := Scan(ListOf(f0, depths, params), 0, -1, None, true, 0);
      while idx < maxChildren
        invariant 0 <= idx && 0 <= i && maxChildren == |params.children|
        invariant Ready(S) && (best == null ==> Snapshot(S) == f0)
        invariant Shows(depths, x, idx, prev, best, found) && Going(f0, Snapshot(S), depths, params, inClass, i, x)
        decreases maxChildren - idx
      {
        Looking(f0, S, depths, params, inClass, i, x);
        var candidate := params.children[idx];
        if candidate.kind == NodeTree.ParamMatch {
          if best != null {
            ghost var before := x;
            r, best, prev, found, x := KeepOne(params, idx, prev, best, found, x, f0, i, S, k);
            if r != Done {
              Stopped(f0, Snapshot(S), depths, cls, params, i, before, r, found, best);
              return;
            }
            maxChildren := maxChildren - 1;
          } else {
            GoingFirst(f0, Snapshot(S), depths, params, inClass, i, x);
            x := x.(idx := x.idx + 1, prev := x.idx, best := Some(x.children[x.idx]));
            prev := idx;
            best := candidate;
            idx := idx + 1;
          }
        } else {
          GoingArgument(f0, Snapshot(S), depths, params, inClass, i, x);
          x := x.(idx := x.idx + 1);
          idx := idx + 1;
        }
        i := i + 1;
      }
      Looking(f0, S, depths, params, inClass, i, x);
      GoingIdx(f0, Snapshot(S), depths, params, inClass, i, x);
      ScanIsDone(f0, Snapshot(S), depths, cls, params, i, x, best);
      r := if best == null then InternalError else Done;
    }
  }

  lemma {:induction false} InTree(S: set<Node>, n: Node)
    ensures n in S <==> n in Snapshot(S).parent
    ensures Linked(Snapshot(S)) ==> Closed(Snapshot(S))
  {
  }

  lemma {:induction false} LinkedClosed(f: Forest)
    requires Linked(f)
    ensures Closed(f)
  {
  }

  lemma {:induction false} StartGoing(f0: Forest, depths: Depths, params: Node, inClass: bool)
    requires Linked(f0) && params in f0.parent
    ensures Closed(f0) && params in f0.children
    ensures Going(f0, f0, depths, params, inClass, 0, Scan(ListOf(f0, depths, params), 0, -1, None, true, 0))
  {
    ScanStart(inClass, ListOf(f0, depths, params));
  }

  lemma {:induction false} GoingFirst(f0: Forest, f: Forest, depths: Depths, params: Node, inClass: bool, i: nat, x: Scan)
    requires Going(f0, f, depths, params, inClass, i, x) && x.idx < |x.children| && x.children[x.idx].ParamMatch? && x.best.None?
    ensures Going(f0, f, depths, params, inClass, i + 1, x.(idx := x.idx + 1, prev := x.idx, best := Some(x.children[x.idx])))
  {
    hide Scanned, NoDup, Linked;
    GoingLists(f0, f, depths, params, inClass, i, x);
    ScanFirst(inClass, ListOf(f0, depths, params), i, x);
  }

  lemma {:induction false} GoingArgument(f0: Forest, f: Forest, depths: Depths, params: Node, inClass: bool, i: nat, x: Scan)
    requires Going(f0, f, depths, params, inClass, i, x) && x.idx < |x.children| && x.children[x.idx].Argument?
    ensures Going(f0, f, depths, params, inClass, i + 1, x.(idx := x.idx + 1))
  {
    hide Scanned, NoDup, Linked;
    GoingLists(f0, f, depths, params, inClass, i, x);
    ScanArgument(inClass, ListOf(f0, depths, params), i, x);
  }

  lemma {:induction false} GoingIdx(f0: Forest, f: Forest, depths: Depths, params: Node, inClass: bool, i: nat, x: Scan)
    requires Going(f0, f, depths, params, inClass, i, x)
    ensures x.idx <= |x.children|
  {
  }

  /** A deletion was refused. */
  lemma {:induction false} Stopped(f0: Forest, f: Forest, depths: Depths, cls: map<Node, ClassHierarchy.Cls>, params: Node, i: nat, x: Scan,
                                   r: Outcome, found: bool, best: Node?)
    requires Closed(f0) && params in f0.children && Scanned(CallInClass(f0, cls, params), ListOf(f0, depths, params), i, x) && x.best.Some?
    requires Linked(f) && OnlyDeleted(f0, f, params) && !Free(f0, params) && (r == LockedNode || r == IncompatibleType)
    ensures Chosen(f0, f, depths, cls, params, r, found, best)
  {
    hide Scanned, Linked, OnlyDeleted, Free, ListOf;
    ScanNext(CallInClass(f0, cls, params), ListOf(f0, depths, params), i, x);
  }
}
