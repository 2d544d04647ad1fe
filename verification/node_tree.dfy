/** The node tree of the compiler: parent links, child vectors and lock counters,
    and the one routine every tree operation goes through. */
module NodeTree {
  import opened Sequences
  import opened Text
  import AttributeKinds

  /** The node types, grouped the way `set_parent()` groups them. Types the model
      names elsewhere have their own constructor; the others carry a code. */
  datatype NodeType =
    // may have children and may be children
    | Unknown | Program | Package | Class | Interface | Function | Label
    | Extends | Implements | DirectiveList | ParamMatch | Expression(code: nat) | Branch(code: nat)
    // may have children, never a child
    | Root
    // never has children, may be a child
    | Identifier | String | Int64 | Float64 | Goto | True | False | Abstract | Final | Inline | Native
    | Private | Protected | Public | Static | Transient | Volatile | Leaf(code: nat)
    // brackets, separators, end of file: neither
    | Punctuation(code: nat)

  predicate AcceptsChildren(t: NodeType) {
    t.Unknown? || t.Program? || t.Package? || t.Class? || t.Interface? || t.Function? || t.Label?
    || t.Extends? || t.Implements? || t.DirectiveList? || t.ParamMatch? || t.Expression? || t.Branch? || t.Root?
  }

  predicate CanBeChild(t: NodeType) {
    !t.Root? && !t.Punctuation?
  }

  /** How a call ends: normally, or with one of the exceptions. */
  datatype Outcome = Done | LockedNode | IncompatibleType | InternalError | OutOfRange | InvalidData | NoParent

  /** A snapshot of a set of nodes: what the tree operations read and write. */
  datatype Forest = Forest(
    kind: map<Node, NodeType>,
    parent: ParentMap,
    children: map<Node, seq<Node>>,
    lock: map<Node, int>)

  // ------------------------------------------------------------------
  //  Invariants of a forest
  // ------------------------------------------------------------------

  ghost predicate Closed(f: Forest) {
    && f.kind.Keys == f.parent.Keys == f.children.Keys == f.lock.Keys
    && (forall n {:trigger f.parent[n] in f.parent} :: n in f.parent && f.parent[n] != null ==> f.parent[n] in f.parent)
    && (forall n, c {:trigger c in f.children[n]} :: n in f.children && c in f.children[n] ==> c in f.parent)
  }

  /** The two-way link: a node is in a child vector iff that node is its parent,
      and then exactly once. */
  ghost predicate Linked(f: Forest) {
    && Closed(f)
    && (forall n {:trigger f.children[n]} :: n in f.children ==> NoDup(f.children[n]))
    && (forall n, c {:trigger c in f.children[n]} :: n in f.children && c in f.children[n] ==> f.parent[c] == n)
    && (forall c {:trigger f.children[f.parent[c]]} ::
          c in f.parent && f.parent[c] != null ==> c in f.children[f.parent[c]])
  }

  /** Where each node hangs. */
  type ParentMap = map<Node, Node?>

  /** The chain of parents that starts at `n` ends within `k` steps. */
  ghost predicate Grounded(up: ParentMap, n: Node?, k: nat) {
    n == null || (k > 0 && n in up && Grounded(up, up[n], k - 1))
  }

  ghost predicate AllGrounded(up: ParentMap, k: nat) {
    forall n :: n in up ==> Grounded(up, n, k)
  }

  ghost predicate Acyclic(up: ParentMap) {
    exists k: nat :: AllGrounded(up, k)
  }

  /** The node `k` steps above `n`. */
  ghost function Up(up: ParentMap, n: Node?, k: nat): Node? {
    if k == 0 || n == null || n !in up then n else Up(up, up[n], k - 1)
  }

  /** `n` is `x` or one of its descendants. */
  ghost predicate Under(up: ParentMap, n: Node?, x: Node) {
    exists k: nat :: Up(up, n, k) == x
  }

  // ------------------------------------------------------------------
  //  The operations, as functions on snapshots
  // ------------------------------------------------------------------

  ghost function Detach(f: Forest, c: Node): (g: Forest)
    requires Closed(f) && c in f.parent
    ensures Closed(g) && g.parent.Keys == f.parent.Keys && g.children.Keys == f.children.Keys
    ensures g.kind == f.kind && g.lock == f.lock
  {
    var q := f.parent[c];
    if q == null then f
    else
      OnlyOldMembers(f.children[q], c, 0);
      f.(parent := f.parent[c := null], children := f.children[q := Without(f.children[q], c)])
  }

  ghost function Attach(f: Forest, c: Node, p: Node, index: nat): (g: Forest)
    requires c in f.parent && p in f.parent && p in f.children && index <= |f.children[p]|
    ensures g.parent.Keys == f.parent.Keys && g.children.Keys == f.children.Keys
    ensures g.kind == f.kind && g.lock == f.lock && (Closed(f) ==> Closed(g))
  {
    OnlyOldMembers(f.children[p], c, index);
    f.(parent := f.parent[c := p], children := f.children[p := InsertAt(f.children[p], index, c)])
  }

  ghost function WithLock(f: Forest, n: Node, lock: int): Forest {
    f.(lock := f.lock[n := lock])
  }

  /** The tests `set_parent()` makes before it touches anything. */
  ghost function Refusal(f: Forest, c: Node, p: Node?): Outcome
    requires Closed(f) && c in f.parent && (p != null ==> p in f.parent)
  {
    var q := f.parent[c];
    if f.lock[c] != 0 || (p != null && f.lock[p] != 0) || (p != q && q != null && f.lock[q] != 0) then LockedNode
    else if p != null && !AcceptsChildren(f.kind[p]) then IncompatibleType
    else if !CanBeChild(f.kind[c]) then IncompatibleType
    else if q != null && c !in f.children[q] then InternalError
    else Done
  }

  /** `set_parent()` on a snapshot. */
  ghost function Reparent(f: Forest, c: Node, p: Node?, index: int): (r: (Forest, Outcome))
    requires Closed(f) && c in f.parent && (p != null ==> p in f.parent)
    ensures Closed(r.0) && r.0.parent.Keys == f.parent.Keys && r.0.kind == f.kind && r.0.lock == f.lock
  {
    if Refusal(f, c, p) == LockedNode then (f, LockedNode)
    else if p == f.parent[c] && index == -1 then (f, Done)
    else if Refusal(f, c, p) != Done then (f, Refusal(f, c, p))
    else Move(f, c, p, index)
  }

  /** The move itself. The index is tested when the child is already out. */
  ghost function Move(f: Forest, c: Node, p: Node?, index: int): (r: (Forest, Outcome))
    requires Closed(f) && c in f.parent && (p != null ==> p in f.parent)
    ensures Closed(r.0) && r.0.parent.Keys == f.parent.Keys && r.0.kind == f.kind && r.0.lock == f.lock
  {
    var g := Detach(f, c);
    if p == null then (g, Done)
    else if index == -1 then (Attach(g, c, p, |g.children[p]|), Done)
    else if index < 0 || index > |g.children[p]| then (g, OutOfRange)
    else (Attach(g, c, p, index), Done)
  }

  ghost function DeleteAt(f: Forest, p: Node, index: int): (r: (Forest, Outcome))
    requires Closed(f) && p in f.parent
    ensures Closed(r.0) && r.0.parent.Keys == f.parent.Keys && r.0.kind == f.kind && r.0.lock == f.lock
  {
    if 0 <= index < |f.children[p]| then
      assert f.children[p][index] in f.children[p];
      Reparent(f, f.children[p][index], null, -1)
    else (f, OutOfRange)
  }

  ghost function InsertInto(f: Forest, p: Node, index: int, child: Node?): (r: (Forest, Outcome))
    requires Closed(f) && p in f.parent && (child != null ==> child in f.parent)
    ensures Closed(r.0) && r.0.parent.Keys == f.parent.Keys && r.0.kind == f.kind && r.0.lock == f.lock
  {
    if child == null then (f, InvalidData) else Reparent(f, child, p, index)
  }

  ghost function ReplaceAt(f: Forest, p: Node, index: int, child: Node?): (r: (Forest, Outcome))
    requires Closed(f) && p in f.parent && (child != null ==> child in f.parent)
    ensures Closed(r.0) && r.0.parent.Keys == f.parent.Keys && r.0.kind == f.kind && r.0.lock == f.lock
  {
    if child == null then (f, InvalidData)
    else
      var (g, r) := DeleteAt(f, p, index);
      if r != Done then (g, r) else InsertInto(g, p, index, child)
  }

  /** `replace_with()`: the parent is unlocked for the time of the exchange, whatever its
      counter was, and gets its counter back on every exit. */
  ghost function Replace(f: Forest, c: Node, node: Node?): (r: (Forest, Outcome))
    requires Closed(f) && c in f.parent && (node != null ==> node in f.parent)
    ensures Closed(r.0) && r.0.parent.Keys == f.parent.Keys
  {
    var p := f.parent[c];
    if node == null then (f, InvalidData)
    else if p == null then (f, NoParent)
    else
      var w := WithLock(f, p, 0);
      var (g, r) := if c !in f.children[p] then (w, InternalError)
                    else ReplaceAt(w, p, IndexOf(f.children[p], c), node);
      (WithLock(g, p, f.lock[p]), r)
  }

  class Node {
    var kind: NodeType
    var parent: Node?
    var children: seq<Node>
    var lock: int
    var str: Text
    /** The labels of a function. */
    var labels: map<Text, Node>
    var gotoEnter: Node?
    var gotoExit: Node?
    var attributes: set<AttributeKinds.Attribute>
    var attributeNode: Node?

    /** Erases this node from its parent's vector and forgets the parent. */
    method Unlink(ghost S: set<Node>) returns (r: Outcome)
      requires this in S && Closed(Snapshot(S))
      modifies S`parent, S`children
      ensures r == InternalError <==> old(parent != null && this !in parent.children)
      ensures r != Done ==> r == InternalError && Snapshot(S) == old(Snapshot(S))
      ensures r == Done ==> Snapshot(S) == Detach(old(Snapshot(S)), this)
    {
      var q := parent;
      if q == null { return Done; }
      assert Snapshot(S).parent[this] == q && q in Snapshot(S).parent;
      var it := IndexOf(q.children, this);
      if it == |q.children| { return InternalError; }
      Forget(q, it, S);
      return Done;
    }

    /** Takes this node out of the vector of `q`, where it stands at `it`. */
    method Forget(q: Node, it: nat, ghost S: set<Node>)
      requires this in S && q in S && it == IndexOf(q.children, this) < |q.children|
      modifies this`parent, q`children
      ensures Parents(S) == old(Parents(S))[this := null]
      ensures Children(S) == old(Children(S))[q := Without(old(q.children), this)]
    {
      hide IndexOf;
      q.children := q.children[..it] + q.children[it + 1..];
      parent := null;
    }

    /** Inserts this node in the vector of `p` and makes `p` its parent. */
    method Link(p: Node, at: nat, ghost S: set<Node>)
      requires this in S && p in S && at <= |p.children|
      modifies S`parent, S`children
      ensures Snapshot(S) == Attach(old(Snapshot(S)), this, p, at)
    {
      p.children := InsertAt(p.children, at, this);
      parent := p;
      assert Parents(S) == old(Parents(S))[this := p];
      assert Children(S) == old(Children(S))[p := InsertAt(old(p.children), at, this)];
    }

    /** The tests made before anything is touched. */
    method Check(p: Node?, ghost S: set<Node>) returns (r: Outcome)
      requires this in S && (p != null ==> p in S) && Closed(Snapshot(S))
      ensures r == (if Refusal(Snapshot(S), this, p) == InternalError then Done else Refusal(Snapshot(S), this, p))
    {
      assert Snapshot(S).parent[this] == parent && (parent != null ==> parent in Snapshot(S).parent);
      if lock != 0 { return LockedNode; }
      if p != null && p.lock != 0 { return LockedNode; }
      if p != parent && parent != null && parent.lock != 0 { return LockedNode; }
      if p != null && !AcceptsChildren(p.kind) { return IncompatibleType; }
      if !CanBeChild(kind) { return IncompatibleType; }
      return Done;
    }

    method MoveTo(p: Node?, index: int, ghost S: set<Node>) returns (r: Outcome)
      requires this in S && (p != null ==> p in S) && Closed(Snapshot(S))
      modifies S`parent, S`children
      ensures (Snapshot(S), r) ==
        if old(parent != null && this !in parent.children) then (old(Snapshot(S)), InternalError)
        else Move(old(Snapshot(S)), this, p, index)
    {
      r := Unlink(S);
      if r != Done || p == null { return; }
      if index == -1 {
        Link(p, |p.children|, S);
      } else if index < 0 || index > |p.children| {
        r := OutOfRange;
      } else {
        Link(p, index, S);
      }
    }

    method SetParent(p: Node?, index: int, ghost S: set<Node>) returns (r: Outcome)
      requires this in S && (p != null ==> p in S) && Closed(Snapshot(S))
      modifies S`parent, S`children
      ensures (Snapshot(S), r) == Reparent(old(Snapshot(S)), this, p, index)
    {
      r := Check(p, S);
      if r == LockedNode { return; }
      if p == parent && index == -1 { return Done; }
      if r != Done { return; }
      assert Snapshot(S).parent[this] == parent && (parent != null ==> parent in Snapshot(S).parent);
      r := MoveTo(p, index, S);
    }

    method DeleteChild(index: int, ghost S: set<Node>) returns (r: Outcome)
      requires this in S && Closed(Snapshot(S))
      modifies S`parent, S`children
      ensures (Snapshot(S), r) == DeleteAt(old(Snapshot(S)), this, index)
    {
      if index < 0 || index >= |children| { return OutOfRange; }
      assert children[index] in Snapshot(S).children[this];
      r := children[index].SetParent(null, -1, S);
    }

    method AppendChild(child: Node?, ghost S: set<Node>) returns (r: Outcome)
      requires this in S && (child != null ==> child in S) && Closed(Snapshot(S))
      modifies S`parent, S`children
      ensures (Snapshot(S), r) == InsertInto(old(Snapshot(S)), this, -1, child)
    {
      if child == null { return InvalidData; }
      r := child.SetParent(this, -1, S);
    }

    method InsertChild(index: int, child: Node?, ghost S: set<Node>) returns (r: Outcome)
      requires this in S && (child != null ==> child in S) && Closed(Snapshot(S))
      modifies S`parent, S`children
      ensures (Snapshot(S), r) == InsertInto(old(Snapshot(S)), this, index, child)
    {
      if child == null { return InvalidData; }
      r := child.SetParent(this, index, S);
    }

    method SetChild(index: int, child: Node?, ghost S: set<Node>) returns (r: Outcome)
      requires this in S && (child != null ==> child in S) && Closed(Snapshot(S))
      modifies S`parent, S`children
      ensures (Snapshot(S), r) == ReplaceAt(old(Snapshot(S)), this, index, child)
    {
      if child == null { return InvalidData; }
      r := DeleteChild(index, S);
      if r == Done {
        r := InsertChild(index, child, S);
      }
    }

    /** The position of this node in its parent's vector. */
    method GetOffset() returns (r: Outcome, offset: nat)
      ensures r == NoParent <==> parent == null
      ensures r == InternalError <==> parent != null && this !in parent.children
      ensures r == Done ==> this in parent.children && offset == IndexOf(parent.children, this)
      ensures r == Done || r == NoParent || r == InternalError
    {
      offset := 0;
      if parent == null { return NoParent, 0; }
      offset := IndexOf(parent.children, this);
      r := if offset == |parent.children| then InternalError else Done;
    }

    method SetLock(value: int, ghost S: set<Node>)
      requires this in S
      modifies this`lock
      ensures Snapshot(S) == WithLock(old(Snapshot(S)), this, value)
    {
      lock := value;
      assert Locks(S) == old(Locks(S))[this := value];
    }

    method ReplaceWith(node: Node?, ghost S: set<Node>) returns (r: Outcome)
      requires this in S && (node != null ==> node in S) && Closed(Snapshot(S))
      modifies S`parent, S`children, S`lock
      ensures (Snapshot(S), r) == Replace(old(Snapshot(S)), this, node)
    {
      hide IndexOf;
      if node == null { return InvalidData; }
      var p := parent;
      if p == null { return NoParent; }
      assert Snapshot(S).parent[this] == p && p in Snapshot(S).parent;
      var saved := p.lock;
      p.SetLock(0, S);
      var offset;
      r, offset := GetOffset();
      if r == Done {
        r := p.SetChild(offset, node, S);
      }
      p.SetLock(saved, S);
    }

    method Lock(ghost S: set<Node>)
      requires this in S
      modifies this`lock
      ensures Snapshot(S) == WithLock(old(Snapshot(S)), this, old(lock) + 1)
    {
      SetLock(lock + 1, S);
    }

    method Unlock(ghost S: set<Node>) returns (r: Outcome)
      requires this in S
      modifies this`lock
      ensures r == if old(lock) <= 0 then InternalError else Done
      ensures Snapshot(S) == if r == Done then WithLock(old(Snapshot(S)), this, old(lock) - 1) else old(Snapshot(S))
    {
      if lock <= 0 { return InternalError; }
      SetLock(lock - 1, S);
      return Done;
    }
  }

  ghost function Kinds(S: set<Node>): map<Node, NodeType>
    reads S`kind
  {
    map n | n in S :: n.kind
  }

  ghost function Parents(S: set<Node>): ParentMap
    reads S`parent
  {
    map n | n in S :: n.parent
  }

  ghost function Children(S: set<Node>): map<Node, seq<Node>>
    reads S`children
  {
    map n | n in S :: n.children
  }

  ghost function Locks(S: set<Node>): map<Node, int>
    reads S`lock
  {
    map n | n in S :: n.lock
  }

  ghost function Snapshot(S: set<Node>): (f: Forest)
    reads S`kind, S`parent, S`children, S`lock
  {
    Forest(Kinds(S), Parents(S), Children(S), Locks(S))
  }
}
