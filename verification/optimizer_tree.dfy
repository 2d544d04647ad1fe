/** The driver of the optimizer: children first, then every table over and over until a
    whole pass changes nothing. The tables are parameters with a contract. */
module OptimizerTree {
  import opened NodeTree
  import opened OptimizerMatch

  /** One optimization: a match table, and what `apply_functions()` puts in the place of
      the matched root, given the node array. */
  datatype Rule = Rule(m: seq<Entry>, rewrite: seq<Ast> -> Ast)

  type Tables = seq<seq<seq<Rule>>>

  /** What the nodes mean, and a number every rule lowers. */
  datatype Theory<!V> = Theory(eval: (Data, seq<V>) -> V, measure: Ast -> nat)

  ghost function Meaning<V>(th: Theory<V>, t: Ast): V
    decreases t, 1
  {
    th.eval(t.data, Meanings(th, t.children))
  }

  ghost function Meanings<V>(th: Theory<V>, ts: seq<Ast>): seq<V>
    decreases ts, 0
  {
    if ts == [] then [] else [Meaning(th, ts[0])] + Meanings(th, ts[1..])
  }

  /** The contract of a rule: it keeps the meaning of what it matches and lowers the
      measure. */
  ghost predicate Sound<V(!new)>(th: Theory<V>, rule: Rule) {
    rule.m != [] &&
    forall t {:trigger FlatMatch([], t, rule.m, 0)} :: FlatMatch([], t, rule.m, 0).Matched? ==>
      var t' := rule.rewrite(FlatMatch([], t, rule.m, 0).nodes);
      Meaning(th, t') == Meaning(th, t) && th.measure(t') < th.measure(t)
  }

  ghost predicate AllSound<V(!new)>(th: Theory<V>, tables: Tables) {
    forall i, j, k :: 0 <= i < |tables| && 0 <= j < |tables[i]| && 0 <= k < |tables[i][j]| ==> Sound(th, tables[i][j][k])
  }

  ghost predicate Fails(rule: Rule, t: Ast) {
    rule.m != [] && FlatMatch([], t, rule.m, 0) == Failed
  }

  ghost predicate AllFail(rules: seq<Rule>, t: Ast) {
    forall k :: 0 <= k < |rules| ==> Fails(rules[k], t)
  }

  ghost predicate TableFails(table: seq<seq<Rule>>, t: Ast) {
    forall j :: 0 <= j < |table| ==> AllFail(table[j], t)
  }

  ghost predicate NothingMatches(tables: Tables, t: Ast) {
    forall i :: 0 <= i < |tables| ==> TableFails(tables[i], t)
  }

  /** Some table tests a value it cannot test, or refers back to a node that is not there. */
  ghost predicate TestsCanThrow(tables: Tables) {
    exists rule, t: Ast :: InTables(tables, rule) && rule.m != [] && FlatMatch([], t, rule.m, 0) == Threw
  }

  // ------------------------------------------------------------------
  //  Rewriting
  // ------------------------------------------------------------------

  ghost predicate InTables(tables: Tables, rule: Rule) {
    exists i, j, k :: 0 <= i < |tables| && 0 <= j < |tables[i]| && 0 <= k < |tables[i][j]| && tables[i][j][k] == rule
  }

  ghost predicate RewritesRoot(rule: Rule, t: Ast, t': Ast) {
    rule.m != [] && FlatMatch([], t, rule.m, 0).Matched? && t' == rule.rewrite(FlatMatch([], t, rule.m, 0).nodes)
  }

  /** `t'` is `t` with one rule applied at one place. */
  ghost predicate Rewrites(tables: Tables, t: Ast, t': Ast) {
    || (exists rule :: InTables(tables, rule) && RewritesRoot(rule, t, t'))
    || (exists i :: 0 <= i < |t.children| == |t'.children|
         && t'.data == t.data && t'.children == t.children[i := t'.children[i]]
         && Rewrites(tables, t.children[i], t'.children[i]))
  }

  /** A run of rewrites from `t` to `t'`. */
  ghost predicate Trail(tables: Tables, s: seq<Ast>, t: Ast, t': Ast) {
    && s != [] && s[0] == t && s[|s| - 1] == t'
    && forall i :: 0 <= i < |s| - 1 ==> Rewrites(tables, s[i], s[i + 1])
  }

  lemma {:induction false} TrailJoin(tables: Tables, a: seq<Ast>, b: seq<Ast>, t: Ast, t': Ast, t'': Ast)
    requires Trail(tables, a, t, t') && Trail(tables, b, t', t'')
    ensures Trail(tables, a + b[1..], t, t'')
  {
    var s := a + b[1..];
    forall i | 0 <= i < |s| - 1 ensures Rewrites(tables, s[i], s[i + 1]) {
      if i >= |a| - 1 {
        assert s[i] == b[i - (|a| - 1)] && s[i + 1] == b[i + 1 - (|a| - 1)];
      }
    }
    assert s[|s| - 1] == t'';
  }

  /** A run below one child, seen from the parent. */
  ghost function Lift(t: Ast, i: nat, s: seq<Ast>): (r: seq<Ast>)
    requires i < |t.children|
    ensures |r| == |s|
    ensures forall k :: 0 <= k < |s| ==> r[k] == Ast(t.data, t.children[i := s[k]])
  {
    if s == [] then [] else [Ast(t.data, t.children[i := s[0]])] + Lift(t, i, s[1..])
  }

  lemma {:induction false} TrailLift(tables: Tables, t: Ast, i: nat, s: seq<Ast>, c': Ast)
    requires i < |t.children| && Trail(tables, s, t.children[i], c')
    ensures Trail(tables, Lift(t, i, s), t, Ast(t.data, t.children[i := c']))
  {
    var r := Lift(t, i, s);
    assert t.children[i := t.children[i]] == t.children;
    forall k | 0 <= k < |r| - 1 ensures Rewrites(tables, r[k], r[k + 1]) {
      var a, b := r[k], r[k + 1];
      assert a.children[i] == s[k] && b.children[i] == s[k + 1];
      assert b.children == a.children[i := b.children[i]];
    }
  }

  lemma {:induction false} MeaningsUpdate<V>(th: Theory<V>, ts: seq<Ast>, i: nat, c: Ast)
    requires i < |ts| && Meaning(th, c) == Meaning(th, ts[i])
    ensures Meanings(th, ts[i := c]) == Meanings(th, ts)
  {
    if i > 0 {
      assert ts[i := c][1..] == ts[1..][i - 1 := c];
      MeaningsUpdate(th, ts[1..], i - 1, c);
    } else {
      assert ts[i := c][1..] == ts[1..];
    }
  }

  // ------------------------------------------------------------------
  //  The routines
  // ------------------------------------------------------------------

  datatype Applied = Changed | Unchanged | Raised

  /** Without a parent there is no slot to put the result in: an internal error. */
  method ApplyOptimization(node: Ast, hasParent: bool, rule: Rule) returns (r: Applied, node': Ast)
    requires rule.m != []
    ensures r == Changed ==> RewritesRoot(rule, node, node')
    ensures r != Changed ==> node' == node
    ensures r == Unchanged <==> Fails(rule, node)
    ensures r == Raised <==> (FlatMatch([], node, rule.m, 0) == Threw || (FlatMatch([], node, rule.m, 0).Matched? && !hasParent))
  {
    var result := MatchTree([], node, rule.m, 0);
    match result
    case Threw => return Raised, node;
    case Failed => return Unchanged, node;
    case Matched(nodes) =>
      if !hasParent { return Raised, node; }
      return Changed, rule.rewrite(nodes);
  }

  /** One pass over all tables. */
  method OnePass<V(!new)>(start: Ast, hasParent: bool, tables: Tables, ghost th: Theory<V>)
    returns (r: Applied, node: Ast, ghost trail: seq<Ast>)
    requires AllSound(th, tables)
    ensures Meaning(th, node) == Meaning(th, start) && Trail(tables, trail, start, node)
    ensures r == Changed ==> th.measure(node) < th.measure(start) && |trail| > 1
    ensures r == Unchanged ==> node == start && |trail| == 1 && NothingMatches(tables, start)
    ensures r == Raised && hasParent ==> TestsCanThrow(tables)
  {
    node, trail := start, [start];
    var repeat := false;
    for i := 0 to |tables|
      invariant Meaning(th, node) == Meaning(th, start) && Trail(tables, trail, start, node)
      invariant repeat ==> th.measure(node) < th.measure(start) && |trail| > 1
      invariant !repeat ==> node == start && |trail| == 1 && forall i' :: 0 <= i' < i ==> TableFails(tables[i'], start)
    {
      var table := tables[i];
      for j := 0 to |table|
        invariant Meaning(th, node) == Meaning(th, start) && Trail(tables, trail, start, node)
        invariant repeat ==> th.measure(node) < th.measure(start) && |trail| > 1
        invariant !repeat ==> node == start && |trail| == 1 && (forall i' :: 0 <= i' < i ==> TableFails(tables[i'], start))
                              && forall j' :: 0 <= j' < j ==> AllFail(table[j'], start)
      {
        var rules := table[j];
        for k := 0 to |rules|
          invariant Meaning(th, node) == Meaning(th, start) && Trail(tables, trail, start, node)
          invariant repeat ==> th.measure(node) < th.measure(start) && |trail| > 1
          invariant !repeat ==> node == start && |trail| == 1 && (forall i' :: 0 <= i' < i ==> TableFails(tables[i'], start))
                                && (forall j' :: 0 <= j' < j ==> AllFail(table[j'], start))
                                && forall k' :: 0 <= k' < k ==> Fails(rules[k'], start)
        {
          var rule := rules[k];
          assert rule == tables[i][j][k] && Sound(th, rule) && InTables(tables, rule);
          var applied, next := ApplyOptimization(node, hasParent, rule);
          if applied == Raised {
            return Raised, node, trail;
          }
          if applied == Changed {
            trail := Extend(tables, trail, start, node, next, rule);
            repeat := true;
          }
          node := next;
        }
      }
    }
    r := if repeat then Changed else Unchanged;
  }

  lemma {:induction false} Extend(tables: Tables, trail: seq<Ast>, start: Ast, node: Ast, next: Ast, rule: Rule) returns (trail': seq<Ast>)
    requires Trail(tables, trail, start, node) && InTables(tables, rule) && RewritesRoot(rule, node, next)
    ensures Trail(tables, trail', start, next) && |trail'| == |trail| + 1
  {
    trail' := trail + [next];
    forall i | 0 <= i < |trail'| - 1 ensures Rewrites(tables, trail'[i], trail'[i + 1]) {
      assert i < |trail| - 1 ==> trail'[i] == trail[i] && trail'[i + 1] == trail[i + 1];
    }
  }

  /** `optimize_tree()`. The result is what now stands at the position of `start`; `trail`
      is the run of rewrites that led there, also when an exception ends it. */
  method OptimizeTree<V(!new)>(start: Ast, hasParent: bool, tables: Tables, ghost th: Theory<V>)
    returns (r: Applied, node: Ast, ghost trail: seq<Ast>)
    requires AllSound(th, tables)
    ensures Meaning(th, node) == Meaning(th, start)
    ensures Trail(tables, trail, start, node)
    ensures r == Changed ==> |trail| > 1
    ensures r == Unchanged ==> |trail| == 1 && node == start
    ensures r != Raised && start.data.kind != Unknown ==> NothingMatches(tables, node)
    ensures r == Raised && hasParent ==> TestsCanThrow(tables)
    decreases start, 1
  {
    if start.data.kind == Unknown {
      return Unchanged, start, [start];
    }
    r, node, trail := OptimizeChildren(start, tables, th);
    if r == Raised {
      return;
    }
    var result := r == Changed;
    var repeat := true;
    while repeat
      invariant Meaning(th, node) == Meaning(th, start) && Trail(tables, trail, start, node)
      invariant if result then |trail| > 1 else |trail| == 1
      invariant !repeat ==> NothingMatches(tables, node)
      decreases th.measure(node), if repeat then 1 else 0
    {
      var pass, next;
      ghost var more;
      pass, next, more := OnePass(node, hasParent, tables, th);
      TrailJoin(tables, trail, more, start, node, next);
      trail, node := trail + more[1..], next;
      if pass == Raised {
        return Raised, node, trail;
      }
      repeat := pass == Changed;
      result := result || repeat;
    }
    r := if result then Changed else Unchanged;
  }

  /** The first loop: each child in turn. Every child has a parent. */
  method OptimizeChildren<V(!new)>(start: Ast, tables: Tables, ghost th: Theory<V>)
    returns (r: Applied, node: Ast, ghost trail: seq<Ast>)
    requires AllSound(th, tables)
    ensures Meaning(th, node) == Meaning(th, start)
    ensures Trail(tables, trail, start, node)
    ensures node.data == start.data && |node.children| == |start.children|
    ensures r == Changed ==> |trail| > 1
    ensures r == Unchanged ==> |trail| == 1
    ensures r == Raised ==> TestsCanThrow(tables)
    ensures r != Raised ==> forall i :: 0 <= i < |node.children| && start.children[i].data.kind != Unknown ==>
                                        NothingMatches(tables, node.children[i])
    decreases start, 0
  {
    hide NothingMatches, TestsCanThrow, AllSound, Rewrites, Meanings, Lift;
    node, trail := start, [start];
    var result := false;
    for idx := 0 to |start.children|
      invariant Meaning(th, node) == Meaning(th, start) && Trail(tables, trail, start, node)
      invariant node.data == start.data && |node.children| == |start.children|
      invariant forall i :: idx <= i < |start.children| ==> node.children[i] == start.children[i]
      invariant forall i :: 0 <= i < idx && start.children[i].data.kind != Unknown ==> NothingMatches(tables, node.children[i])
      invariant if result then |trail| > 1 else |trail| == 1
    {
      var sub, child;
      ghost var below;
      sub, child, below := OptimizeTree(start.children[idx], true, tables, th);
      TrailLift(tables, node, idx, below, child);
      MeaningsUpdate(th, node.children, idx, child);
      var next := Ast(node.data, node.children[idx := child]);
      TrailJoin(tables, trail, Lift(node, idx, below), start, node, next);
      trail, node := trail + Lift(node, idx, below)[1..], next;
      if sub == Raised {
        return Raised, node, trail;
      }
      result := result || sub == Changed;
    }
    r := if result then Changed else Unchanged;
  }
}
