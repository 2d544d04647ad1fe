/** The flat matcher refines matching of trees. */
module MatchLaws {
  import opened NodeTree
  import opened OptimizerMatch
  import opened MatchTests

  /** A pattern as a tree. A leaf accepts a node with any children. */
  datatype Pattern = Pattern(test: Test, children: seq<Pattern>)

  function Height(p: Pattern): nat {
    1 + HeightAll(p.children)
  }

  function HeightAll(ps: seq<Pattern>): nat {
    if ps == [] then 0
    else
      var h, t := Height(ps[0]), HeightAll(ps[1..]);
      if h < t then t else h
  }

  /** The table of a pattern: preorder, with depths, the children flag on inner entries. */
  function Flatten(p: Pattern, depth: nat): (m: seq<Entry>)
    ensures m != [] && m[0] == Entry(depth, p.children != [], p.test)
  {
    [Entry(depth, p.children != [], p.test)] + FlattenAll(p.children, depth + 1)
  }

  function FlattenAll(ps: seq<Pattern>, depth: nat): (m: seq<Entry>)
    ensures ps == [] <==> m == []
    ensures m != [] ==> m[0].depth == depth
  {
    if ps == [] then [] else Flatten(ps[0], depth) + FlattenAll(ps[1..], depth)
  }

  // ------------------------------------------------------------------
  //  Matching trees
  // ------------------------------------------------------------------

  /** An inner pattern wants exactly its children, each matched in turn; a back reference
      sees the nodes matched before. */
  function MatchPattern(nodes: seq<Ast>, node: Ast, p: Pattern): MatchResult
    decreases p, 1
  {
    match NodeVerdict(nodes, node.data, p.test)
    case Throws => Threw
    case Differs => Failed
    case Matches =>
      if p.children == [] then Matched(nodes + [node]) else MatchAll(nodes + [node], node.children, p.children)
  }

  function MatchAll(nodes: seq<Ast>, ns: seq<Ast>, ps: seq<Pattern>): MatchResult
    decreases ps, 0
  {
    if ps == [] then (if ns == [] then Matched(nodes) else Failed)
    else if ns == [] then Failed
    else
      var sub := MatchPattern(nodes, ns[0], ps[0]);
      if sub.Matched? then MatchAll(sub.nodes, ns[1..], ps[1..]) else sub
  }

  // ------------------------------------------------------------------
  //  The flat routine does the same
  // ------------------------------------------------------------------

  /** Entries below the current level are stepped over. */
  lemma {:induction false} DeepEntriesSkipped(nodes: seq<Ast>, left: seq<Ast>, deep: seq<Entry>, rest: seq<Entry>, level: nat)
    requires forall i :: 0 <= i < |deep| ==> deep[i].depth > level
    ensures FlatLoop(nodes, left, deep + rest, level) == FlatLoop(nodes, left, rest, level)
  {
    if deep == [] {
      assert deep + rest == rest;
    } else {
      assert (deep + rest)[1..] == deep[1..] + rest;
      DeepEntriesSkipped(nodes, left, deep[1..], rest, level);
    }
  }

  /** One child against one sub-pattern, whose table is `first`. */
  lemma {:induction false} LoopStep(nodes: seq<Ast>, ns: seq<Ast>, first: seq<Entry>, more: seq<Entry>, level: nat)
    requires first != [] && first[0].depth == level && forall i :: 0 < i < |first| ==> level < first[i].depth
    ensures ns == [] ==> FlatLoop(nodes, ns, first + more, level) == Failed
    ensures ns != [] ==> var sub := FlatMatch(nodes, ns[0], first + more, level);
      FlatLoop(nodes, ns, first + more, level) == if sub.Matched? then FlatLoop(sub.nodes, ns[1..], more, level) else sub
  {
    if ns != [] {
      var sub := FlatMatch(nodes, ns[0], first + more, level);
      if sub.Matched? {
        assert (first + more)[1..] == first[1..] + more;
        DeepEntriesSkipped(sub.nodes, ns[1..], first[1..], more, level);
      }
    }
  }

  lemma {:induction false} FlattenDepths(p: Pattern, depth: nat)
    ensures forall i :: 0 <= i < |Flatten(p, depth)| ==> depth <= Flatten(p, depth)[i].depth < depth + Height(p)
    ensures forall i :: 0 < i < |Flatten(p, depth)| ==> depth < Flatten(p, depth)[i].depth
  {
    FlattenAllDepths(p.children, depth + 1);
  }

  lemma {:induction false} FlattenAllDepths(ps: seq<Pattern>, depth: nat)
    ensures forall i :: 0 <= i < |FlattenAll(ps, depth)| ==> depth <= FlattenAll(ps, depth)[i].depth < depth + HeightAll(ps)
  {
    if ps != [] {
      FlattenDepths(ps[0], depth);
      FlattenAllDepths(ps[1..], depth);
    }
  }

  /** On the table of a pattern, whatever else follows in the table, `match_tree()` gives
      what matching the trees gives: the same verdict and the same node array. */
  lemma {:induction false} FlatRefinesTree(nodes: seq<Ast>, node: Ast, p: Pattern, depth: nat, rest: seq<Entry>)
    requires depth + Height(p) <= 256 && (rest == [] || rest[0].depth <= depth)
    ensures FlatMatch(nodes, node, Flatten(p, depth) + rest, depth) == MatchPattern(nodes, node, p)
    decreases p, 1
  {
    var m := Flatten(p, depth) + rest;
    assert m[0] == Flatten(p, depth)[0];
    assert m[1..] == FlattenAll(p.children, depth + 1) + rest;
    if p.children != [] {
      LoopRefinesList(nodes + [node], node.children, p.children, depth + 1, rest);
    }
  }

  lemma {:induction false} LoopRefinesList(nodes: seq<Ast>, ns: seq<Ast>, ps: seq<Pattern>, level: nat, rest: seq<Entry>)
    requires level + HeightAll(ps) <= 256 && (rest == [] || rest[0].depth < level)
    ensures FlatLoop(nodes, ns, FlattenAll(ps, level) + rest, level) == MatchAll(nodes, ns, ps)
    decreases ps, 0
  {
    if ps == [] {
      assert FlattenAll(ps, level) + rest == rest;
    } else {
      var more := FlattenAll(ps[1..], level) + rest;
      var first := Flatten(ps[0], level);
      assert FlattenAll(ps, level) + rest == first + more;
      FlattenDepths(ps[0], level);
      LoopStep(nodes, ns, first, more, level);
      if ns != [] {
        FlatRefinesTree(nodes, ns[0], ps[0], level, more);
        var sub := MatchPattern(nodes, ns[0], ps[0]);
        if sub.Matched? {
          LoopRefinesList(sub.nodes, ns[1..], ps[1..], level, rest);
        }
      }
    }
  }

  // ------------------------------------------------------------------
  //  What a match means
  // ------------------------------------------------------------------

  /** The node has the form of the pattern: the arity of every inner pattern node. */
  ghost predicate Fits(node: Ast, p: Pattern)
    decreases p, 1
  {
    p.children != [] ==> FitsAll(node.children, p.children)
  }

  ghost predicate FitsAll(ns: seq<Ast>, ps: seq<Pattern>)
    decreases ps, 0
  {
    |ns| == |ps| && (ps != [] ==> Fits(ns[0], ps[0]) && FitsAll(ns[1..], ps[1..]))
  }

  /** The tests of a pattern, in table order. */
  function Tests(p: Pattern): seq<Test>
    decreases p, 1
  {
    [p.test] + TestsAll(p.children)
  }

  function TestsAll(ps: seq<Pattern>): seq<Test>
    decreases ps, 0
  {
    if ps == [] then [] else Tests(ps[0]) + TestsAll(ps[1..])
  }

  lemma {:induction false} FlattenTests(p: Pattern, depth: nat)
    ensures |Flatten(p, depth)| == |Tests(p)|
    ensures forall i :: 0 <= i < |Tests(p)| ==> Flatten(p, depth)[i].test == Tests(p)[i]
    decreases p, 1
  {
    FlattenAllTests(p.children, depth + 1);
  }

  lemma {:induction false} FlattenAllTests(ps: seq<Pattern>, depth: nat)
    ensures |FlattenAll(ps, depth)| == |TestsAll(ps)|
    ensures forall i :: 0 <= i < |TestsAll(ps)| ==> FlattenAll(ps, depth)[i].test == TestsAll(ps)[i]
    decreases ps, 0
  {
    if ps != [] {
      FlattenTests(ps[0], depth);
      FlattenAllTests(ps[1..], depth);
    }
  }

  /** The nodes that lie under the entries of the pattern, in table order. */
  ghost function Facing(node: Ast, p: Pattern): (s: seq<Ast>)
    requires Fits(node, p)
    ensures |s| == |Tests(p)|
    decreases p, 1
  {
    [node] + if p.children == [] then [] else FacingAll(node.children, p.children)
  }

  ghost function FacingAll(ns: seq<Ast>, ps: seq<Pattern>): (s: seq<Ast>)
    requires FitsAll(ns, ps)
    ensures |s| == |TestsAll(ps)|
    decreases ps, 0
  {
    if ps == [] then [] else Facing(ns[0], ps[0]) + FacingAll(ns[1..], ps[1..])
  }

  /** Every node passes its test, with the nodes before it as the earlier ones. */
  ghost predicate AllPass(nodes: seq<Ast>, facing: seq<Ast>, tests: seq<Test>)
    requires |facing| == |tests|
    decreases |facing|
  {
    facing == [] ||
    (NodeVerdict(nodes, facing[0].data, tests[0]) == Matches && AllPass(nodes + [facing[0]], facing[1..], tests[1..]))
  }

  lemma {:induction false} AllPassConcat(nodes: seq<Ast>, a: seq<Ast>, b: seq<Ast>, s: seq<Test>, t: seq<Test>)
    requires |a| == |s| && |b| == |t|
    ensures AllPass(nodes, a + b, s + t) <==> AllPass(nodes, a, s) && AllPass(nodes + a, b, t)
    decreases |a|
  {
    if a == [] {
      assert a + b == b && s + t == t && nodes + a == nodes;
    } else {
      assert (a + b)[1..] == a[1..] + b && (s + t)[1..] == s[1..] + t;
      assert nodes + [a[0]] + a[1..] == nodes + a;
      AllPassConcat(nodes + [a[0]], a[1..], b, s[1..], t);
    }
  }

  lemma {:induction false} AllPassAt(nodes: seq<Ast>, facing: seq<Ast>, tests: seq<Test>, i: nat)
    requires |facing| == |tests| && i < |facing| && AllPass(nodes, facing, tests)
    ensures NodeVerdict(nodes + facing[..i], facing[i].data, tests[i]) == Matches
    decreases i
  {
    if i == 0 {
      assert nodes + facing[..0] == nodes;
    } else {
      AllPassAt(nodes + [facing[0]], facing[1..], tests[1..], i - 1);
      assert nodes + [facing[0]] + facing[1..][..i - 1] == nodes + facing[..i];
    }
  }

  lemma {:induction false} MatchMeans(nodes: seq<Ast>, node: Ast, p: Pattern)
    ensures MatchPattern(nodes, node, p).Matched? <==> Fits(node, p) && AllPass(nodes, Facing(node, p), Tests(p))
    ensures MatchPattern(nodes, node, p).Matched? ==> MatchPattern(nodes, node, p).nodes == nodes + Facing(node, p)
    decreases p, 1
  {
    if p.children != [] {
      MatchAllMeans(nodes + [node], node.children, p.children);
    }
    if Fits(node, p) {
      var rest := if p.children == [] then [] else FacingAll(node.children, p.children);
      AllPassConcat(nodes, [node], rest, [p.test], TestsAll(p.children));
      assert nodes + ([node] + rest) == nodes + [node] + rest;
      assert AllPass(nodes, [node], [p.test]) <==> NodeVerdict(nodes, node.data, p.test) == Matches;
    }
  }

  lemma {:induction false} MatchAllMeans(nodes: seq<Ast>, ns: seq<Ast>, ps: seq<Pattern>)
    ensures MatchAll(nodes, ns, ps).Matched? <==> FitsAll(ns, ps) && AllPass(nodes, FacingAll(ns, ps), TestsAll(ps))
    ensures MatchAll(nodes, ns, ps).Matched? ==> MatchAll(nodes, ns, ps).nodes == nodes + FacingAll(ns, ps)
    decreases ps, 0
  {
    hide Fits, Facing, Tests, NodeVerdict;
    if ps != [] && ns != [] {
      MatchMeans(nodes, ns[0], ps[0]);
      if Fits(ns[0], ps[0]) {
        var first := Facing(ns[0], ps[0]);
        MatchAllMeans(nodes + first, ns[1..], ps[1..]);
        if FitsAll(ns[1..], ps[1..]) {
          var rest := FacingAll(ns[1..], ps[1..]);
          AllPassConcat(nodes, first, rest, Tests(ps[0]), TestsAll(ps[1..]));
          assert nodes + (first + rest) == nodes + first + rest;
        }
      }
    }
  }

  /** The node has the form of the pattern, and the node that faces entry `i` is what entry
      `i` asks for, where a back reference reads the nodes that face earlier entries. */
  ghost predicate Satisfies(node: Ast, p: Pattern, m: seq<Entry>) {
    && Fits(node, p) && |Facing(node, p)| == |m|
    && forall i :: 0 <= i < |m| ==> NodeFits(Facing(node, p)[..i], Facing(node, p)[i].data, m[i].test)
  }

  /** The main result: `match_tree()` on the table of a pattern succeeds exactly when the
      node satisfies the pattern, and then the node array holds, at the position of each
      entry, the node that faces it. */
  lemma {:induction false} MatchTreeCorrect(node: Ast, p: Pattern)
    requires Height(p) <= 256
    ensures var (r, m) := (FlatMatch([], node, Flatten(p, 0), 0), Flatten(p, 0));
      && (r.Matched? <==> Satisfies(node, p, m))
      && (r.Matched? ==> r.nodes == Facing(node, p))
  {
    hide NodeVerdict, NodeFits;
    assert Flatten(p, 0) + [] == Flatten(p, 0);
    FlatRefinesTree([], node, p, 0, []);
    MatchMeans([], node, p);
    FlattenTests(p, 0);
    if Fits(node, p) {
      assert [] + Facing(node, p) == Facing(node, p);
      AllPassMeans(Facing(node, p), Tests(p), Flatten(p, 0));
      VerdictsMean(Facing(node, p), Flatten(p, 0));
    }
  }

  lemma {:induction false} VerdictsMean(facing: seq<Ast>, m: seq<Entry>)
    requires |facing| == |m|
    ensures forall i :: 0 <= i < |m| ==>
      (NodeVerdict(facing[..i], facing[i].data, m[i].test) == Matches <==> NodeFits(facing[..i], facing[i].data, m[i].test))
  {
    hide NodeVerdict, NodeFits;
    forall i | 0 <= i < |m|
      ensures NodeVerdict(facing[..i], facing[i].data, m[i].test) == Matches <==> NodeFits(facing[..i], facing[i].data, m[i].test)
    {
      VerdictMeans(facing[..i], facing[i].data, m[i].test);
    }
  }

  lemma {:induction false} AllPassMeans(facing: seq<Ast>, tests: seq<Test>, m: seq<Entry>)
    requires |facing| == |tests| == |m| && forall i :: 0 <= i < |m| ==> m[i].test == tests[i]
    ensures AllPass([], facing, tests)
       <==> forall i :: 0 <= i < |m| ==> NodeVerdict(facing[..i], facing[i].data, m[i].test) == Matches
  {
    if AllPass([], facing, tests) {
      forall i | 0 <= i < |m| ensures NodeVerdict(facing[..i], facing[i].data, m[i].test) == Matches {
        AllPassAt([], facing, tests, i);
        assert [] + facing[..i] == facing[..i];
      }
    }
    assert facing[..0] == [] && facing[0..] == facing && tests[0..] == tests;
    if forall i :: 0 <= i < |m| ==> NodeVerdict(facing[..i], facing[i].data, m[i].test) == Matches {
      AllPassFrom(facing, tests, m, 0);
    }
  }

  lemma {:induction false} AllPassFrom(facing: seq<Ast>, tests: seq<Test>, m: seq<Entry>, k: nat)
    requires |facing| == |tests| == |m| && (forall i :: 0 <= i < |m| ==> m[i].test == tests[i]) && k <= |m|
    requires forall i :: 0 <= i < |m| ==> NodeVerdict(facing[..i], facing[i].data, m[i].test) == Matches
    ensures AllPass(facing[..k], facing[k..], tests[k..])
    decreases |m| - k
  {
    if k < |m| {
      AllPassFrom(facing, tests, m, k + 1);
      assert facing[..k] + [facing[k]] == facing[..k + 1];
      assert facing[k..][1..] == facing[k + 1..] && tests[k..][1..] == tests[k + 1..];
    }
  }

  // ------------------------------------------------------------------
  //  All sets, or one set
  // ------------------------------------------------------------------

  /** The rule that is documented: one of the listed sets is the set of the node. */
  predicate SomeSet(sets: seq<set<nat>>, s: set<nat>) {
    sets == [] || exists i :: 0 <= i < |sets| && sets[i] == s
  }

  predicate AllSame(sets: seq<set<nat>>) {
    forall i, j :: 0 <= i < |sets| && 0 <= j < |sets| ==> sets[i] == sets[j]
  }

  lemma {:induction false} AllIsSome(sets: seq<set<nat>>, s: set<nat>)
    ensures AllSets(sets, s) ==> SomeSet(sets, s)
    ensures AllSame(sets) && SomeSet(sets, s) ==> AllSets(sets, s)
  {
    if AllSets(sets, s) && sets != [] {
      assert sets[0] == s;
    }
  }

  /** The two rules agree on every set exactly when the listed sets are all the same. */
  lemma {:induction false} RulesAgree(sets: seq<set<nat>>)
    ensures (forall s :: AllSets(sets, s) <==> SomeSet(sets, s)) <==> AllSame(sets)
  {
    if AllSame(sets) {
      forall s ensures AllSets(sets, s) <==> SomeSet(sets, s) {
        AllIsSome(sets, s);
      }
    }
    if forall s :: AllSets(sets, s) <==> SomeSet(sets, s) {
      if sets != [] {
        assert SomeSet(sets, sets[0]) && AllSets(sets, sets[0]);
      }
    }
  }

  /** The type and the value of the node pass. */
  predicate Passes(earlier: seq<Ast>, d: Data, t: Test) {
    (t.kinds == [] || d.kind in t.kinds) && (t.values == [] || ValueVerdict(earlier, d, t.values[0]) == Matches)
  }

  /** `match_node()` as documented. */
  function DocumentedVerdict(earlier: seq<Ast>, d: Data, t: Test): Verdict {
    if !Passes(earlier, d, t) then NodeVerdict(earlier, d, t)
    else if SomeSet(t.attributes, d.attributes) && SomeSet(t.flags, d.flags) then Matches
    else Differs
  }

  /** A node that passes, with other attributes and flags, still does. */
  lemma {:induction false} StillPasses(earlier: seq<Ast>, d: Data, t: Test, attributes: set<nat>, flags: set<nat>)
    requires Passes(earlier, d, t)
    ensures Passes(earlier, d.(attributes := attributes, flags := flags), t)
  {
    hide ValueVerdict;
    if t.values != [] {
      SameValue(earlier, d, d.(attributes := attributes, flags := flags), t.values[0]);
    }
  }

  lemma {:induction false} SameValue(earlier: seq<Ast>, d: Data, e: Data, v: ValueTest)
    requires e == d.(attributes := e.attributes, flags := e.flags)
    ensures ValueVerdict(earlier, d, v) == ValueVerdict(earlier, e, v)
  {
    hide HasBits;
  }

  lemma {:induction false} PassingVerdict(earlier: seq<Ast>, d: Data, t: Test)
    requires Passes(earlier, d, t)
    ensures NodeVerdict(earlier, d, t) == if AllSets(t.attributes, d.attributes) && AllSets(t.flags, d.flags) then Matches else Differs
  {
  }

  /** The entry gives the documented verdict on every node exactly when no node passes its tests of
      type and value, or its sets of attributes are all the same and so are its sets of flags. */
  lemma {:induction false} VerdictsAgree(t: Test)
    ensures (forall earlier, d :: NodeVerdict(earlier, d, t) == DocumentedVerdict(earlier, d, t))
      <==> (AllSame(t.attributes) && AllSame(t.flags)) || forall earlier, d :: !Passes(earlier, d, t)
  {
    hide AllSets, SomeSet, AllSame, Passes, NodeVerdict;
    if AllSame(t.attributes) && AllSame(t.flags) {
      forall earlier, d ensures NodeVerdict(earlier, d, t) == DocumentedVerdict(earlier, d, t) {
        AllIsSome(t.attributes, d.attributes);
        AllIsSome(t.flags, d.flags);
        if Passes(earlier, d, t) {
          PassingVerdict(earlier, d, t);
        }
      }
    } else if earlier, d :| Passes(earlier, d, t) {
      VerdictsDiffer(earlier, d, t);
    }
  }

  /** Otherwise a node that has the first set of each list tells them apart. */
  lemma {:induction false} VerdictsDiffer(earlier: seq<Ast>, d: Data, t: Test)
    requires Passes(earlier, d, t) && !(AllSame(t.attributes) && AllSame(t.flags))
    ensures var d' := d.(attributes := if t.attributes == [] then {} else t.attributes[0], flags := if t.flags == [] then {} else t.flags[0]);
      NodeVerdict(earlier, d', t) == Differs && DocumentedVerdict(earlier, d', t) == Matches
  {
    var a, b := if t.attributes == [] then {} else t.attributes[0], if t.flags == [] then {} else t.flags[0];
    StillPasses(earlier, d, t, a, b);
    PassingVerdict(earlier, d.(attributes := a, flags := b), t);
    assert AllSets(t.attributes, a) ==> AllSame(t.attributes);
    assert AllSets(t.flags, b) ==> AllSame(t.flags);
  }

  /** An entry with two sets of one attribute each: no node with the first attribute alone matches,
      though it should. */
  lemma {:induction false} TwoSetsDiffer(d: Data)
    requires d.attributes == {1}
    ensures var t := Test([], [], [{1}, {2}], []);
      NodeVerdict([], d, t) == Differs && DocumentedVerdict([], d, t) == Matches
  {
    var t := Test([], [], [{1}, {2}], []);
    assert t.attributes[0] == {1} && t.attributes[1] == {2} && 2 in t.attributes[1] && 2 !in d.attributes;
  }
}
