/** Scoped locks on nodes, and what a lock protects over whole runs of tree operations. */
module NodeLocks {
  import opened Sequences
  import opened NodeTree
  import opened ForestLaws
  import opened ReplaceLaws

  class NodeLock {
    var node: Node?

    constructor (n: Node?, ghost S: set<Node>)
      requires n != null ==> n in S
      modifies S`lock
      ensures node == n
      ensures Snapshot(S) == if n == null then old(Snapshot(S)) else WithLock(old(Snapshot(S)), n, old(n.lock) + 1)
    {
      node := n;
      new;
      if n != null {
        n.Lock(S);
      }
    }

    /** Also what the destructor does; calling it again does nothing. */
    method Unlock(ghost S: set<Node>) returns (r: Outcome)
      requires node != null ==> node in S
      modifies this, S`lock
      ensures r == if old(node) != null && old(node.lock) <= 0 then InternalError else Done
      ensures r == Done ==> node == null
      ensures r != Done ==> node == old(node)
      ensures Snapshot(S) == if old(node) != null && r == Done then WithLock(old(Snapshot(S)), old(node), old(node.lock) - 1)
                             else old(Snapshot(S))
    {
      r := Done;
      if node != null {
        r := node.Unlock(S);
        if r == Done {
          node := null;
        }
      }
    }
  }

  // ------------------------------------------------------------------
  //  Runs
  // ------------------------------------------------------------------

  /** The tree, and the node each NodeLock created so far still holds. */
  datatype World = World(f: Forest, guards: seq<Node?>)

  datatype Step =
    | SetParentStep(c: Node, p: Node?, index: int)
    | DeleteStep(at: Node, index: int)
    | SetChildStep(at: Node, index: int, child: Node?)
    | ReplaceStep(c: Node, node: Node?)
    | LockStep(n: Node?)
    | UnlockStep(guard: nat)

  ghost predicate Possible(w: World, s: Step) {
    match s
    case SetParentStep(c, p, _) => c in w.f.parent && (p != null ==> p in w.f.parent)
    case DeleteStep(at, _) => at in w.f.parent
    case SetChildStep(at, _, child) => at in w.f.parent && (child != null ==> child in w.f.parent)
    case ReplaceStep(c, node) => c in w.f.parent && (node != null ==> node in w.f.parent)
    case LockStep(n) => n != null ==> n in w.f.lock
    case UnlockStep(guard) => guard < |w.guards|
  }

  ghost function Apply(w: World, s: Step): World
    requires Linked(w.f) && Possible(w, s)
  {
    match s
    case SetParentStep(c, p, index) => w.(f := Reparent(w.f, c, p, index).0)
    case DeleteStep(at, index) => w.(f := DeleteAt(w.f, at, index).0)
    case SetChildStep(at, index, child) => w.(f := ReplaceAt(w.f, at, index, child).0)
    case ReplaceStep(c, node) => w.(f := Replace(w.f, c, node).0)
    case LockStep(n) =>
      if n == null then w.(guards := w.guards + [null])
      else World(WithLock(w.f, n, w.f.lock[n] + 1), w.guards + [n])
    case UnlockStep(guard) =>
      var n := w.guards[guard];
      if n == null || n !in w.f.lock || w.f.lock[n] <= 0 then w
      else World(WithLock(w.f, n, w.f.lock[n] - 1), w.guards[guard := null])
  }

  /** Locks are taken and released through NodeLock only. */
  ghost predicate Balanced(w: World) {
    && Linked(w.f)
    && (forall n {:trigger w.f.lock[n]} :: n in w.f.lock ==> w.f.lock[n] == multiset(w.guards)[n])
    && (forall n {:trigger n in w.guards} :: n in w.guards && n != null ==> n in w.f.lock)
  }

  lemma {:induction false} TreeStepKeeps(w: World, s: Step)
    requires Linked(w.f) && Possible(w, s) && !s.LockStep? && !s.UnlockStep?
    ensures var w' := Apply(w, s); Linked(w'.f) && w'.f.lock == w.f.lock && w'.guards == w.guards
  {
    match s
    case SetParentStep(c, p, index) => ReparentKeepsLinks(w.f, c, p, index);
    case DeleteStep(at, index) => DeleteAtKeepsLinks(w.f, at, index);
    case SetChildStep(at, index, child) =>
      if child != null { ReplaceAtKeepsLinks(w.f, at, index, child); }
    case ReplaceStep(c, node) => ReplaceRestores(w.f, c, node);
  }

  lemma {:induction false} LockKeepsBalance(w: World, n: Node)
    requires Balanced(w) && n in w.f.lock
    ensures Balanced(Apply(w, LockStep(n)))
  {
    assert multiset(w.guards + [n]) == multiset(w.guards) + multiset{n};
  }

  lemma {:induction false} EmptyLockKeepsBalance(w: World)
    requires Balanced(w)
    ensures Balanced(Apply(w, LockStep(null)))
  {
    hide Linked;
    assert multiset(w.guards + [null]) == multiset(w.guards) + multiset{null};
  }

  lemma {:induction false} LockedIsLinked(f: Forest, n: Node, lock: int)
    requires Linked(f) && n in f.lock
    ensures Linked(WithLock(f, n, lock))
  {
    hide NoDup;
  }

  lemma {:induction false} UnlockKeepsBalance(w: World, guard: nat)
    requires Balanced(w) && guard < |w.guards|
    ensures Balanced(Apply(w, UnlockStep(guard)))
    ensures Apply(w, UnlockStep(guard)).guards == w.guards[guard := null]
  {
    hide NoDup;
    var n := w.guards[guard];
    assert n in w.guards;
    if n != null {
      LockedIsLinked(w.f, n, w.f.lock[n] - 1);
      hide Linked;
      assert n in multiset(w.guards);
      assert w.f.lock[n] > 0;
      var guards := w.guards[guard := null];
      assert multiset(guards) == multiset(w.guards) - multiset{n} + multiset{null};
      assert forall m :: m in guards && m != null ==> m in w.guards;
    }
  }

  /** Every counter stays the number of live locks on its node, so it is never negative
      and the release of a live lock never throws. */
  lemma {:induction false} StepKeepsBalance(w: World, s: Step)
    requires Balanced(w) && Possible(w, s)
    ensures Balanced(Apply(w, s))
    ensures forall i :: 0 <= i < |w.guards| && s != UnlockStep(i) ==> Apply(w, s).guards[i] == w.guards[i]
    ensures s.UnlockStep? ==> Apply(w, s).guards == w.guards[s.guard := null]
    ensures |w.guards| <= |Apply(w, s).guards|
  {
    hide Linked;
    if s.UnlockStep? {
      UnlockKeepsBalance(w, s.guard);
    } else if s.LockStep? && s.n != null {
      LockKeepsBalance(w, s.n);
    } else if s.LockStep? {
      EmptyLockKeepsBalance(w);
    } else {
      TreeStepKeeps(w, s);
    }
  }

  // ------------------------------------------------------------------
  //  What a lock protects
  // ------------------------------------------------------------------

  ghost predicate Untouched(f: Forest, g: Forest, n: Node) {
    && n in f.parent && n in f.children && n in g.parent && n in g.children
    && g.parent[n] == f.parent[n] && g.children[n] == f.children[n]
  }

  lemma {:induction false} ReparentRespectsLock(f: Forest, c: Node, p: Node?, index: int, n: Node)
    requires Linked(f) && c in f.parent && (p != null ==> p in f.parent) && n in f.parent && f.lock[n] != 0
    ensures Untouched(f, Reparent(f, c, p, index).0, n)
  {
    RefusalReasons(f, c, p);
    if !Stays(f, c, p, index) {
      MoveAt(f, c, p, index, n);
    }
  }

  lemma {:induction false} ReplaceAtRespectsLock(f: Forest, p: Node, i: int, node: Node, n: Node)
    requires Linked(f) && p in f.parent && node in f.parent && n in f.parent && f.lock[n] != 0
    ensures Untouched(f, ReplaceAt(f, p, i, node).0, n)
  {
    if 0 <= i < |f.children[p]| {
      var c := f.children[p][i];
      assert c in f.children[p];
      ReparentKeepsLinks(f, c, null, -1);
      ReparentRespectsLock(f, c, null, -1, n);
      ReparentRespectsLock(Reparent(f, c, null, -1).0, node, p, i, n);
    }
  }

  /** `s` replaces a child of `n`. */
  ghost predicate Exchanges(f: Forest, s: Step, n: Node) {
    s.ReplaceStep? && s.c in f.parent && f.parent[s.c] == n
  }

  /** A tree operation that is not the replacement of one of its children leaves a locked
      node where it is and its child vector as it is. */
  lemma {:induction false} StepRespectsLock(w: World, s: Step, n: Node)
    requires Balanced(w) && Possible(w, s) && n in w.f.parent && w.f.lock[n] != 0 && !Exchanges(w.f, s, n)
    ensures Untouched(w.f, Apply(w, s).f, n)
  {
    match s
    case SetParentStep(c, p, index) => ReparentRespectsLock(w.f, c, p, index, n);
    case DeleteStep(at, index) =>
      if 0 <= index < |w.f.children[at]| {
        assert w.f.children[at][index] in w.f.children[at];
        ReparentRespectsLock(w.f, w.f.children[at][index], null, -1, n);
      }
    case SetChildStep(at, index, child) =>
      if child != null { ReplaceAtRespectsLock(w.f, at, index, child, n); }
    case ReplaceStep(c, node) =>
      var p := w.f.parent[c];
      if node != null && p != null {
        assert p in w.f.parent && c in w.f.children[p];
        GapLinked(w.f, c);
        ReplaceAtRespectsLock(Window(w.f, c), p, IndexOf(w.f.children[p], c), node, n);
      }
    case LockStep(_) =>
    case UnlockStep(_) =>
  }

  /** Replacing a child `c` of a locked node `n` by a node that is not a child of `n`: on
      success the vector of `n` changes at that one position. */
  lemma {:induction false} ExchangeUnderLock(w: World, c: Node, node: Node, n: Node)
    requires Balanced(w) && c in w.f.parent && node in w.f.parent && n in w.f.parent
    requires w.f.parent[c] == n && c != n && w.f.parent[node] != n
    ensures var (g, r) := Replace(w.f, c, node);
      && n in g.parent && n in g.children
      && (r == Done <==> Exchangeable(w.f, c, node))
      && (r == Done ==> g.children[n] == w.f.children[n][Offset(w.f, c) := node])
      && (r != Done ==> g.children[n] == if Leaving(w.f, c) == Done then Without(w.f.children[n], c) else w.f.children[n])
      && (g.parent[n] != w.f.parent[n] <==> r == Done && node == n)
  {
    ReplaceSucceeds(w.f, c, node);
    if Replace(w.f, c, node).1 == Done {
      ReplaceInPlace(w.f, c, node, n);
    } else {
      ReplaceRefused(w.f, c, node);
    }
  }

  /** Whatever comes in for a child, siblings included, the locked node itself stays. */
  lemma {:induction false} ExchangeKeepsParent(w: World, c: Node, node: Node?, n: Node)
    requires Balanced(w) && c in w.f.parent && (node != null ==> node in w.f.parent) && n in w.f.parent
    requires w.f.parent[c] == n && c != n && node != n
    ensures var g := Replace(w.f, c, node).0; n in g.parent && g.parent[n] == w.f.parent[n]
  {
    if node != null {
      ReplaceKeepsParent(w.f, c, node);
    }
  }

  ghost function Run(w: World, steps: seq<Step>): World
    requires Balanced(w) && PossibleRun(w, steps)
    decreases |steps|
  {
    if steps == [] then w
    else
      StepKeepsBalance(w, steps[0]);
      Run(Apply(w, steps[0]), steps[1..])
  }

  ghost predicate PossibleRun(w: World, steps: seq<Step>)
    requires Balanced(w)
    decreases |steps|
  {
    steps == [] || (Possible(w, steps[0]) && (StepKeepsBalance(w, steps[0]); PossibleRun(Apply(w, steps[0]), steps[1..])))
  }

  /** How the run treats the node `n` held by the lock `guard`. */
  datatype Care =
    | KeepsPlace   // it never puts `n` in the place of a child of `n`, nor replaces `n` by itself hanging below itself
    | KeepsLength  // besides, every child of `n` it replaces is replaced by a node from elsewhere, with no lock or type in the way
    | KeepsAll     // it replaces no child of `n`

  ghost predicate Careful(w: World, s: Step, n: Node, care: Care)
    requires Balanced(w) && Possible(w, s)
  {
    Exchanges(w.f, s, n) ==>
      match care
      case KeepsPlace => s.c != n && s.node != n
      case KeepsLength =>
        s.c != n && s.node != n && s.node != null && w.f.parent[s.node] != n && Exchangeable(w.f, s.c, s.node)
      case KeepsAll => false
  }

  /** All along the run the lock `guard` is held and `n` is treated with care. */
  ghost predicate CarefulRun(w: World, steps: seq<Step>, n: Node, guard: nat, care: Care)
    requires Balanced(w) && PossibleRun(w, steps)
    decreases |steps|
  {
    steps == [] ||
    var s := steps[0];
    s != UnlockStep(guard) && Careful(w, s, n, care)
    && (StepKeepsBalance(w, s); CarefulRun(Apply(w, s), steps[1..], n, guard, care))
  }

  lemma {:induction false} CarefulStep(w: World, s: Step, n: Node, care: Care)
    requires Balanced(w) && Possible(w, s) && n in w.f.parent && w.f.lock[n] != 0 && Careful(w, s, n, care)
    ensures var g := Apply(w, s).f;
      && n in g.parent && n in g.children
      && g.parent[n] == w.f.parent[n]
      && (care.KeepsLength? ==> |g.children[n]| == |w.f.children[n]|)
      && (care.KeepsAll? ==> g.children[n] == w.f.children[n])
  {
    StepKeepsBalance(w, s);
    if Exchanges(w.f, s, n) {
      ExchangeKeepsParent(w, s.c, s.node, n);
      if care.KeepsLength? {
        ExchangeUnderLock(w, s.c, s.node, n);
      }
    } else {
      StepRespectsLock(w, s, n);
    }
  }

  /** While a lock on `n` is held no run changes the parent of `n`; its child vector keeps
      its length if children are only exchanged, and does not change if they are not. */
  lemma {:induction false} LockProtects(w: World, steps: seq<Step>, n: Node, guard: nat, care: Care)
    requires Balanced(w) && PossibleRun(w, steps)
    requires guard < |w.guards| && w.guards[guard] == n && CarefulRun(w, steps, n, guard, care)
    ensures var w' := Run(w, steps);
      && Balanced(w') && guard < |w'.guards| && w'.guards[guard] == n
      && n in w.f.parent && n in w.f.children && n in w'.f.parent && n in w'.f.children
      && w'.f.parent[n] == w.f.parent[n]
      && (care.KeepsLength? ==> |w'.f.children[n]| == |w.f.children[n]|)
      && (care.KeepsAll? ==> w'.f.children[n] == w.f.children[n])
    decreases |steps|
  {
    HeldMeansLocked(w, guard);
    if steps != [] {
      var s := steps[0];
      StepKeepsBalance(w, s);
      CarefulStep(w, s, n, care);
      LockProtects(Apply(w, s), steps[1..], n, guard, care);
    }
  }

  /** A child of `n` that is replaced is replaced by a node from elsewhere. */
  ghost predicate FromElsewhere(w: World, s: Step, n: Node)
    requires Balanced(w) && Possible(w, s)
  {
    Exchanges(w.f, s, n) ==> s.c != n && s.node != null && s.node != n && w.f.parent[s.node] != n
  }

  ghost predicate OnlyFromElsewhere(w: World, steps: seq<Step>, n: Node, guard: nat)
    requires Balanced(w) && PossibleRun(w, steps)
    decreases |steps|
  {
    steps == [] ||
    var s := steps[0];
    s != UnlockStep(guard) && FromElsewhere(w, s, n)
    && (StepKeepsBalance(w, s); OnlyFromElsewhere(Apply(w, s), steps[1..], n, guard))
  }

  /** The child of `n` may leave, but the other node may not come in. */
  ghost predicate LosesChild(w: World, s: Step, n: Node)
    requires Balanced(w) && Possible(w, s) && FromElsewhere(w, s, n)
  {
    Exchanges(w.f, s, n) && Leaving(w.f, s.c) == Done && !Exchangeable(w.f, s.c, s.node)
  }

  ghost function ChildrenLost(w: World, steps: seq<Step>, n: Node, guard: nat): nat
    requires Balanced(w) && PossibleRun(w, steps) && OnlyFromElsewhere(w, steps, n, guard)
    decreases |steps|
  {
    if steps == [] then 0
    else
      var s := steps[0];
      StepKeepsBalance(w, s);
      (if LosesChild(w, s, n) then 1 else 0) + ChildrenLost(Apply(w, s), steps[1..], n, guard)
  }

  lemma {:induction false} LengthStep(w: World, s: Step, n: Node)
    requires Balanced(w) && Possible(w, s) && n in w.f.parent && w.f.lock[n] != 0 && FromElsewhere(w, s, n)
    ensures var g := Apply(w, s).f;
      && n in g.parent && n in g.children
      && |g.children[n]| == |w.f.children[n]| - if LosesChild(w, s, n) then 1 else 0
  {
    hide NoDup, IndexOf, Replace, Reparent, DeleteAt, ReplaceAt;
    StepKeepsBalance(w, s);
    if Exchanges(w.f, s, n) {
      assert s.c in w.f.children[n];
      ExchangeUnderLock(w, s.c, s.node, n);
    } else {
      StepRespectsLock(w, s, n);
    }
  }

  /** While a lock on `n` is held, and its children are replaced by nodes from elsewhere, its vector is shorter at the end by exactly
      the number of exchanges whose new node is refused when the old one is already out. */
  lemma {:induction false} LengthUnderLock(w: World, steps: seq<Step>, n: Node, guard: nat)
    requires Balanced(w) && PossibleRun(w, steps)
    requires guard < |w.guards| && w.guards[guard] == n && OnlyFromElsewhere(w, steps, n, guard)
    ensures var w' := Run(w, steps);
      && n in w.f.children && n in w'.f.children
      && |w'.f.children[n]| == |w.f.children[n]| - ChildrenLost(w, steps, n, guard)
    decreases |steps|
  {
    hide LosesChild;
    HeldMeansLocked(w, guard);
    if steps != [] {
      var s := steps[0];
      StepKeepsBalance(w, s);
      LengthStep(w, s, n);
      LengthUnderLock(Apply(w, s), steps[1..], n, guard);
    }
  }

  lemma {:induction false} HeldMeansLocked(w: World, guard: nat)
    requires Balanced(w) && guard < |w.guards| && w.guards[guard] != null
    ensures w.guards[guard] in w.f.lock && w.f.lock[w.guards[guard]] > 0
  {
    var n := w.guards[guard];
    assert n in w.guards;
    assert n in multiset(w.guards);
  }

  /** The exception is real: `n`, locked, hangs below `a`; its only child `c` is replaced by
      `n` itself. The call succeeds and `n` now hangs below `n`. */
  ghost function Trap(a: Node, n: Node, c: Node): Forest
    requires a != n && n != c && a != c
  {
    WithLock(Attach(Attach(Lone(a, n, c), n, a, 0), c, n, 0), n, 1)
  }

  /** Nodes without any link between them. */
  ghost function Lone(a: Node, n: Node, c: Node): (f: Forest)
    ensures Linked(f)
  {
    var all := {a, n, c};
    Forest(map x | x in all :: Branch(0), map x | x in all :: null, map x | x in all :: [], map x | x in all :: 0)
  }

  lemma {:induction false} TrapShape(a: Node, n: Node, c: Node)
    requires a != n && n != c && a != c
    ensures var f := Trap(a, n, c);
      && f.parent.Keys == f.kind.Keys == f.lock.Keys == {a, n, c}
      && f.parent[a] == null && f.parent[n] == a && f.parent[c] == n
      && f.kind[a] == f.kind[n] == f.kind[c] == Branch(0)
      && f.lock[a] == 0 && f.lock[n] == 1 && f.lock[c] == 0
  {
  }

  lemma {:induction false} TrapLinked(a: Node, n: Node, c: Node)
    requires a != n && n != c && a != c
    ensures Linked(Trap(a, n, c))
  {
    AttachKeepsLinks(Lone(a, n, c), n, a, 0);
    AttachKeepsLinks(Attach(Lone(a, n, c), n, a, 0), c, n, 0);
  }

  lemma {:induction false} TrapBalanced(a: Node, n: Node, c: Node)
    requires a != n && n != c && a != c
    ensures Balanced(World(Trap(a, n, c), [n]))
  {
    TrapLinked(a, n, c);
    assert multiset([n]) == multiset{n};
  }

  lemma {:induction false} TrapAcyclic(a: Node, n: Node, c: Node)
    requires a != n && n != c && a != c
    ensures Acyclic(Trap(a, n, c).parent)
  {
    var up := Trap(a, n, c).parent;
    assert Grounded(up, a, 1);
    assert Grounded(up, n, 2);
    assert Grounded(up, c, 3);
    GroundedMonotone(up, a, 1, 3);
    GroundedMonotone(up, n, 2, 3);
    assert AllGrounded(up, 3);
  }

  lemma {:induction false} LockedNodeCanMove(a: Node, n: Node, c: Node)
    requires a != n && n != c && a != c
    ensures var w := World(Trap(a, n, c), [n]);
      && Balanced(w) && Acyclic(w.f.parent) && Possible(w, ReplaceStep(c, n))
      && Apply(w, ReplaceStep(c, n)).f.parent[n] == n
  {
    hide Linked, Replace, NoDup, Acyclic, Trap;
    var w := World(Trap(a, n, c), [n]);
    TrapShape(a, n, c);
    TrapBalanced(a, n, c);
    TrapAcyclic(a, n, c);
    ExchangeUnderLock(w, c, n, n);
    ReplaceInPlace(w.f, c, n, n);
  }
}
