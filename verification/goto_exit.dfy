/** The goto directive: the node a goto has to leave to come to its label. */
module GotoExit {
  import opened Text
  import opened NodeTree
  import opened ForestLaws
  import opened CleanTree
  import opened GotoTargets

  /** Where the search for the label stops. */
  predicate IsFrame(t: NodeType) {
    t.Class? || t.Interface? || t.Function? || t.Package? || t.Program?
  }

  /** How the directive ends: linked, with an error message, or with the exception about missing
      parents, above the goto or above the label. */
  datatype Went = LinkedUp | InClass | NoLabel | NoFrame | NoCommon

  /** The frame is `m` steps above the goto, and nothing below it is one. */
  ghost predicate FrameAt(f: Forest, g: Node, m: nat) {
    && m > 0
    && (var x := Up(f.parent, g, m); x != null && x in f.kind && IsFrame(f.kind[x]))
    && NoFrameBelow(f, g, m)
  }

  ghost predicate NoFrameBelow(f: Forest, g: Node, m: nat) {
    forall i :: 0 < i < m ==> var x := Up(f.parent, g, i); x != null && x in f.kind && !IsFrame(f.kind[x])
  }

  /** Node `m` above the goto is a class, an interface, a function, a package or a program, and none before it is. */
  ghost predicate Nearest(f: Forest, g: Node, m: nat) {
    m > 0 && HasKind(f, Up(f.parent, g, m), true) && forall i: nat :: 0 < i < m ==> HasKind(f, Up(f.parent, g, i), false)
  }

  lemma {:induction false} FrameIsNearest(f: Forest, g: Node, m: nat)
    ensures FrameAt(f, g, m) <==> Nearest(f, g, m)
  {
    hide HasKind, IsFrame;
    KindIs(f, Up(f.parent, g, m), true);
    forall i: nat | 0 < i < m
      ensures HasKind(f, Up(f.parent, g, i), false) <==> (var x := Up(f.parent, g, i); x != null && x in f.kind && !IsFrame(f.kind[x]))
    {
      KindIs(f, Up(f.parent, g, i), false);
    }
    if FrameAt(f, g, m) {
      assert Nearest(f, g, m);
    }
  }

  lemma {:induction false} KindIs(f: Forest, x: Node?, frame: bool)
    ensures HasKind(f, x, frame) <==> x != null && x in f.kind && (IsFrame(f.kind[x]) <==> frame)
  {
    if x != null && x in f.kind {
      var t := f.kind[x];
      assert t in {Class, Interface, Function, Package, Program} <==> t == Class || t == Interface || t == Function || t == Package || t == Program;
    }
  }

  ghost predicate HasKind(f: Forest, x: Node?, frame: bool) {
    x != null && x in f.kind && (f.kind[x] in {Class, Interface, Function, Package, Program} <==> frame)
  }

  ghost predicate Proper(up: ParentMap, n: Node, x: Node) {
    exists j: nat :: j > 0 && Up(up, n, j) == x
  }

  ghost predicate AtOrAbove(up: ParentMap, n: Node, x: Node) {
    exists j: nat :: Up(up, n, j) == x
  }

  /** `x` is a proper ancestor of both, and any other one is above it. */
  ghost predicate DeepestCommon(up: ParentMap, a: Node, b: Node, x: Node) {
    && Proper(up, a, x) && Proper(up, b, x)
    && forall y: Node :: y in up && Proper(up, a, y) && Proper(up, b, y) ==> AtOrAbove(up, x, y)
  }

  ghost predicate LabelsIn(S: set<Node>)
    reads S`labels
  {
    forall n, s :: n in S && s in n.labels ==> n.labels[s] in S
  }

  lemma {:induction false} UpInside(up: ParentMap, n: Node, j: nat)
    requires ClosedUp(up) && n in up
    ensures Up(up, n, j) != null ==> Up(up, n, j) in up && Up(up, n, j + 1) == up[Up(up, n, j)]
    decreases j
  {
    UpAdd(up, n, j, 1);
    if j > 0 {
      UpAdd(up, n, j - 1, 1);
      UpInside(up, n, j - 1);
      assert Up(up, n, j) != null ==> Up(up, n, j - 1) != null && up[Up(up, n, j - 1)] in up;
    }
  }

  /** The chain above `n`, from the parent on. */
  ghost predicate IsChain(up: ParentMap, n: Node, parents: seq<Node>) {
    forall i :: 0 <= i < |parents| ==> parents[i] == Up(up, n, i + 1)
  }

  /** Nothing of the chain above the goto is among the first `j` parents of the label. */
  ghost predicate NoneAmong(up: ParentMap, target: Node, parents: seq<Node>, j: nat) {
    forall i :: 0 < i < j ==> Up(up, target, i) !in parents
  }

  lemma {:induction false} InChain(up: ParentMap, n: Node, parents: seq<Node>, i: nat)
    requires IsChain(up, n, parents) && 0 < i <= |parents|
    ensures Up(up, n, i) in parents
  {
    assert parents[i - 1] == Up(up, n, i);
  }

  lemma {:induction false} AboveFrame(up: ParentMap, g: Node, parents: seq<Node>, x: Node, i: nat)
    requires ClosedUp(up) && g in up && IsChain(up, g, parents) && parents != [] && i > 0 && Up(up, g, i) == x && x !in parents
    ensures i > |parents| && Up(up, parents[|parents| - 1], i - |parents|) == x
  {
    if i <= |parents| {
      InChain(up, g, parents, i);
      assert false;
    }
    UpAdd(up, g, |parents|, i - |parents|);
  }

  /** The first parent of the label in the chain of the goto is the deepest common ancestor. */
  lemma {:induction false} FirstIsDeepest(up: ParentMap, k: nat, g: Node, target: Node, parents: seq<Node>, at: nat, j: nat)
    requires ClosedUp(up) && AllGrounded(up, k) && g in up && target in up
    requires IsChain(up, g, parents) && at < |parents| && j > 0 && Up(up, target, j) == parents[at]
    requires NoneAmong(up, target, parents, j)
    ensures DeepestCommon(up, g, target, parents[at])
  {
    var x := parents[at];
    assert Up(up, g, at + 1) == x;
    forall y: Node | y in up && Proper(up, g, y) && Proper(up, target, y) ensures AtOrAbove(up, x, y) {
      var i: nat :| i > 0 && Up(up, g, i) == y;
      var j': nat :| j' > 0 && Up(up, target, j') == y;
      if j' < j {
        AboveFrame(up, g, parents, y, i);
        NotTwice(up, k, g, target, parents, at, j, y, i - |parents|, j');
      }
      UpAdd(up, target, j, j' - j);
    }
  }

  /** Otherwise the frame would be above itself. */
  lemma {:induction false} NotTwice(up: ParentMap, k: nat, g: Node, target: Node, parents: seq<Node>, at: nat, j: nat, y: Node, t: nat, j': nat)
    requires ClosedUp(up) && AllGrounded(up, k) && g in up && target in up && y in up
    requires IsChain(up, g, parents) && at < |parents| && Up(up, target, j) == parents[at]
    requires t > 0 && Up(up, parents[|parents| - 1], t) == y && Up(up, target, j') == y
    ensures j' >= j
  {
    if j' < j {
      var m := |parents| - 1;
      var frame := parents[m];
      UpInside(up, g, m + 1);
      assert frame == Up(up, g, m + 1);
      UpAdd(up, target, j', j - j');
      assert Up(up, y, j - j') == parents[at];
      UpAdd(up, g, at + 1, m - at);
      assert Up(up, parents[at], m - at) == frame;
      UpAdd(up, y, j - j', m - at);
      UpAdd(up, frame, t, j - j' + (m - at));
      GroundedNoReturn(up, frame, k, t + (j - j' + (m - at)));
    }
  }

  /** If none of the parents of the label is in the chain, the frame is not above the label. */
  lemma {:induction false} FrameNotAbove(up: ParentMap, target: Node, parents: seq<Node>, j: nat)
    requires ClosedUp(up) && target in up && parents != [] && NoneAmong(up, target, parents, j) && Up(up, target, j) == null
    ensures !Proper(up, target, parents[|parents| - 1])
  {
    var frame := parents[|parents| - 1];
    forall i: nat | i > 0 ensures Up(up, target, i) != frame {
      if i >= j {
        UpAdd(up, target, j, i - j);
      }
    }
  }

  // ------------------------------------------------------------------
  //  The directive
  // ------------------------------------------------------------------

  /** The frame of a goto, with the nodes on the way to it. */
  method FindFrame(g: Node, ghost S: set<Node>, ghost k: nat) returns (frame: Node?, parents: seq<Node>, ghost m: nat)
    requires g in S && Closed(Snapshot(S)) && Grounded(Snapshot(S).parent, g, k)
    ensures frame == null ==> Up(Snapshot(S).parent, g, m) == null && NoFrameBelow(Snapshot(S), g, m)
    ensures frame != null ==> frame in S && FrameAt(Snapshot(S), g, m) && m == |parents| && parents[m - 1] == frame
    ensures IsChain(Snapshot(S).parent, g, parents) && (forall i :: 0 <= i < |parents| ==> parents[i] in S)
  {
    ghost var f, left := Snapshot(S), k;
    parents := [];
    var parent := g;
    while true
      invariant parent in S && parent == Up(f.parent, g, |parents|) && Grounded(f.parent, parent, left)
      invariant IsChain(f.parent, g, parents) && NoFrameBelow(f, g, |parents| + 1)
      invariant forall i :: 0 <= i < |parents| ==> parents[i] in S
      decreases left
    {
      UpInside(f.parent, g, |parents|);
      assert f.parent[parent] == parent.parent;
      if parent.parent == null {
        assert Up(f.parent, g, |parents| + 1) == null;
        return null, parents, |parents| + 1;
      }
      parent := parent.parent;
      left := left - 1;
      parents := parents + [parent];
      assert f.kind[parent] == parent.kind;
      if IsFrame(parent.kind) {
        return parent, parents, |parents|;
      }
    }
  }

  /** The first parent of the label that is among `parents`. */
  method FindCommon(target: Node, parents: seq<Node>, ghost S: set<Node>, ghost k: nat) returns (r: Node?, ghost at: nat, ghost j: nat)
    requires target in S && Closed(Snapshot(S)) && Grounded(Snapshot(S).parent, target, k)
    ensures j > 0 && NoneAmong(Snapshot(S).parent, target, parents, j)
    ensures r == null ==> Up(Snapshot(S).parent, target, j) == null
    ensures r != null ==> at < |parents| && Up(Snapshot(S).parent, target, j) == parents[at] == r
  {
    ghost var f, left := Snapshot(S), k;
    var parent := target;
    j := 0;
    while true
      invariant parent in S && parent == Up(f.parent, target, j) && Grounded(f.parent, parent, left)
      invariant NoneAmong(f.parent, target, parents, j + 1)
      decreases left
    {
      UpInside(f.parent, target, j);
      assert f.parent[parent] == parent.parent;
      j := j + 1;
      if parent.parent == null {
        return null, 0, j;
      }
      parent := parent.parent;
      left := left - 1;
      var idx := 0;
      while idx < |parents|
        invariant 0 <= idx <= |parents| && forall i :: 0 <= i < idx ==> parents[i] != parent
      {
        if parents[idx] == parent {
          return parent, idx, j;
        }
        idx := idx + 1;
      }
    }
  }

  /** What the directive says about the goto `g`, whose frame is `m` steps above. */
  ghost predicate Placed(S: set<Node>, g: Node, m: nat, r: Went)
    requires g in S && Closed(Snapshot(S))
    reads S
  {
    var f := Snapshot(S);
    var frame := Up(f.parent, g, m);
    if frame == null || frame !in S then r == NoFrame && NoFrameBelow(f, g, m)
    else
      && FrameAt(f, g, m)
      && (if frame.kind.Class? || frame.kind.Interface? then r == InClass
          else if g.str !in frame.labels then r == NoLabel
          else
            var target := frame.labels[g.str];
            && g.gotoEnter == target
            && (if Proper(f.parent, target, frame) then
                  r == LinkedUp && g.gotoExit != null && DeepestCommon(f.parent, g, target, g.gotoExit)
                else r == NoCommon))
  }

  /** Links a goto to its label and to the node it leaves: their deepest common ancestor, when
      the frame that knows the label is above it. */
  method GotoDirective(g: Node, ghost S: set<Node>, ghost k: nat) returns (r: Went, ghost m: nat)
    requires g in S && Closed(Snapshot(S)) && AllGrounded(Snapshot(S).parent, k) && LabelsIn(S)
    modifies g`gotoEnter, g`gotoExit
    ensures Placed(S, g, m, r)
    ensures r == NoFrame || r == InClass || r == NoLabel ==> g.gotoEnter == old(g.gotoEnter)
    ensures r != LinkedUp ==> g.gotoExit == old(g.gotoExit)
  {
    hide Grounded, FrameAt, NoFrameBelow, DeepestCommon, NoneAmong, Closed, ClosedUp, Snapshot, Proper, Up, IsChain, LabelsIn, AllGrounded;
    ghost var f := Snapshot(S);
    Setting(S, g, k);
    var frame, parents;
    frame, parents, m := FindFrame(g, S, k);
    if frame == null {
      return NoFrame, m;
    }
    AtFrame(f, g, m, parents);
    if frame.kind.Class? || frame.kind.Interface? {
      return InClass, m;
    }
    if g.str !in frame.labels {
      return NoLabel, m;
    }
    var target := frame.labels[g.str];
    LabelSetting(S, frame, g.str, k);
    g.gotoEnter := target;
    var exit;
    ghost var at, j;
    exit, at, j := FindCommon(target, parents, S, k);
    if exit == null {
      FrameNotAbove(f.parent, target, parents, j);
      return NoCommon, m;
    }
    FirstIsDeepest(f.parent, k, g, target, parents, at, j);
    FrameIsAbove(f.parent, g, target, parents, at, j);
    g.gotoExit := exit;
    r := LinkedUp;
  }

  lemma {:induction false} Setting(S: set<Node>, g: Node, k: nat)
    requires g in S && Closed(Snapshot(S)) && AllGrounded(Snapshot(S).parent, k)
    ensures Snapshot(S).parent.Keys == S && ClosedUp(Snapshot(S).parent) && Grounded(Snapshot(S).parent, g, k)
  {
  }

  lemma {:induction false} LabelSetting(S: set<Node>, frame: Node, s: Text, k: nat)
    requires frame in S && s in frame.labels && LabelsIn(S) && Closed(Snapshot(S)) && AllGrounded(Snapshot(S).parent, k)
    ensures frame.labels[s] in S && Grounded(Snapshot(S).parent, frame.labels[s], k)
  {
  }

  lemma {:induction false} AtFrame(f: Forest, g: Node, m: nat, parents: seq<Node>)
    requires FrameAt(f, g, m) && IsChain(f.parent, g, parents) && m == |parents|
    ensures Up(f.parent, g, m) == parents[m - 1]
  {
  }

  lemma {:induction false} FrameIsAbove(up: ParentMap, g: Node, target: Node, parents: seq<Node>, at: nat, j: nat)
    requires ClosedUp(up) && g in up && target in up && IsChain(up, g, parents)
    requires at < |parents| && j > 0 && Up(up, target, j) == parents[at]
    ensures Proper(up, target, parents[|parents| - 1])
  {
    var m := |parents| - 1;
    UpAdd(up, g, at + 1, m - at);
    UpAdd(up, target, j, m - at);
    assert Up(up, target, j + (m - at)) == parents[m];
  }

  // ------------------------------------------------------------------
  //  Searches and gotos
  // ------------------------------------------------------------------

  /** The labels are nodes below `owner`. */
  ghost predicate AllBelow(up: ParentMap, labels: map<Text, Node>, owner: Node) {
    forall s :: s in labels ==> labels[s] in up && Proper(up, labels[s], owner)
  }

  /** What a search below a child of `owner` registers is below `owner`; what was there stays. */
  lemma {:induction false} RegisteredIsBelow(f: Forest, names: Names, before: map<Text, Node>, after: map<Text, Node>, body: Node, owner: Node)
    requires Linked(f) && body in f.parent && f.parent[body] == owner
    requires AllBelow(f.parent, before, owner) && WellRegistered(f, names, before, after, body)
    ensures AllBelow(f.parent, after, owner)
  {
    hide Linked;
    LinkedIsClosed(f);
    forall s | s in after ensures after[s] in f.parent && Proper(f.parent, after[s], owner) {
      if s in before {
        assert after[s] == before[s];
      } else {
        ScopeIsBelow(f, body, after[s], owner);
      }
    }
  }

  lemma {:induction false} ScopeIsBelow(f: Forest, body: Node, x: Node, owner: Node)
    requires Closed(f) && body in f.parent && f.parent[body] == owner && InScope(f, body, x)
    ensures x in f.parent && Proper(f.parent, x, owner)
  {
    var k: nat :| SearchedAt(f, body, x, k);
    SearchedUp(f, body, x, k);
    UpAdd(f.parent, x, k, 1);
    assert Up(f.parent, x, k + 1) == owner;
  }

  /** The labels of every node are below it. */
  ghost predicate LabelsBelow(S: set<Node>)
    reads S`labels, S`kind, S`parent, S`children, S`lock
  {
    forall n {:trigger n.labels} :: n in S ==> AllBelow(Snapshot(S).parent, n.labels, n)
  }

  lemma {:induction false} BelowIsIn(S: set<Node>)
    requires LabelsBelow(S)
    ensures LabelsIn(S)
  {
    forall n, s | n in S && s in n.labels ensures n.labels[s] in S {
      assert AllBelow(Snapshot(S).parent, n.labels, n);
    }
  }

  lemma {:induction false} NeverNoCommon(S: set<Node>, g: Node, m: nat, r: Went)
    requires g in S && Closed(Snapshot(S)) && LabelsBelow(S) && Placed(S, g, m, r)
    ensures r != NoCommon
  {
    hide FrameAt, NoFrameBelow, DeepestCommon, Proper, Closed;
    var frame := Up(Snapshot(S).parent, g, m);
    if frame != null && frame in S {
      assert AllBelow(Snapshot(S).parent, frame.labels, frame);
    }
  }

  lemma {:induction false} StepsBound(up: ParentMap, n: Node?, k: nat, j: nat, x: Node)
    requires Grounded(up, n, k) && Up(up, n, j) == x && (n != null ==> n in up)
    ensures j < k
    decreases k
  {
    if n != null && j > 0 {
      assert Grounded(up, up[n], k - 1);
      assert up[n] != null ==> up[n] in up;
      StepsBound(up, up[n], k - 1, j - 1, x);
    }
  }

  lemma {:induction false} HeightIsBounded(up: ParentMap, x: Node, k: nat)
    requires AllGrounded(up, k)
    ensures HeightBelow(up, x, k)
  {
    forall n, j: nat | n in up && Up(up, n, j) == x ensures j < k {
      StepsBound(up, n, k, j, x);
    }
  }

  /** One search of the labels below a child of a function, program or package, or one goto. */
  datatype Event = Search(owner: Node, body: Node) | Go(g: Node)

  ghost predicate Possible(S: set<Node>, e: Event)
    reads S`parent
  {
    match e
    case Search(owner, body) => owner in S && body in S && body.parent == owner
    case Go(g) => g in S
  }

  /** How many gotos there are. */
  function Gotos(events: seq<Event>): nat {
    if events == [] then 0 else Gotos(events[..|events| - 1]) + if events[|events| - 1].Go? then 1 else 0
  }

  /** One more search keeps the labels below their owners. */
  method SearchMore(owner: Node, body: Node, ghost S: set<Node>, ghost k: nat) returns (r: Outcome)
    requires Linked(Snapshot(S)) && AllGrounded(Snapshot(S).parent, k) && LabelsBelow(S) && Possible(S, Search(owner, body))
    modifies owner`labels
    ensures LabelsBelow(S)
  {
    hide Linked, Closed, AllGrounded, HeightBelow, Registrable, RegisterUnder, WellRegistered, AllBelow;
    ghost var f, names, before := Snapshot(S), NamesOf(S), owner.labels;
    LinkedIsClosed(f);
    HeightIsBounded(f.parent, body, k);
    assert f.parent[body] == owner && body in f.parent;
    UnderIsWellRegistered(f, owner.kind, names, before, body, k);
    r := FindLabels(owner, body, S, k);
    assert AllBelow(f.parent, before, owner);
    RegisteredIsBelow(f, names, before, owner.labels, body, owner);
  }

  /** Whatever labels were searched and whatever gotos were linked before, a goto never fails to find
      a common parent. A search that raises an exception ends the run. */
  method Follow(events: seq<Event>, ghost S: set<Node>, ghost k: nat) returns (went: seq<Went>, r: Outcome)
    requires Linked(Snapshot(S)) && AllGrounded(Snapshot(S).parent, k) && LabelsBelow(S)
    requires forall i :: 0 <= i < |events| ==> Possible(S, events[i])
    modifies S`labels, S`gotoEnter, S`gotoExit
    ensures LabelsBelow(S) && NoCommon !in went
    ensures r == Done ==> |went| == Gotos(events)
  {
    hide Linked, Closed, AllGrounded, LabelsBelow, LabelsIn, Placed, Snapshot;
    went, r := [], Done;
    var i := 0;
    LinkedIsClosed(Snapshot(S));
    while i < |events| && r == Done
      invariant 0 <= i <= |events| && LabelsBelow(S) && NoCommon !in went && |went| == Gotos(events[..i])
      invariant Snapshot(S) == old(Snapshot(S))
      invariant forall j :: 0 <= j < |events| ==> Possible(S, events[j])
    {
      assert events[..i + 1][..i] == events[..i];
      match events[i] {
        case Search(owner, body) =>
          r := SearchMore(owner, body, S, k);
        case Go(g) =>
          BelowIsIn(S);
          var w;
          ghost var m;
          w, m := GotoDirective(g, S, k);
          NeverNoCommon(S, g, m, w);
          went := went + [w];
      }
      i := i + 1;
    }
    assert events[..|events|] == events;
  }
}
