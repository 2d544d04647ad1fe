/** What setting a member or an item does to the values that can be printed. */
module JsonEdits {
  import opened Sequences
  import opened Text
  import opened OrderedMaps
  import opened JsonText
  import opened JsonGraph
  import opened JsonCycles

  ghost predicate Leads(g: Graph, older p: seq<JSONValue>, a: JSONValue, b: JSONValue) {
    Path(g, p) && p[0] == a && p[|p| - 1] == b
  }

  ghost predicate Reaches(g: Graph, a: JSONValue, b: JSONValue) {
    exists p :: Leads(g, p, a, b)
  }

  /** `h` is `g`, but for the children of `o`. */
  ghost predicate SameBut(g: Graph, h: Graph, o: JSONValue) {
    o in g.Keys && h.Keys == g.Keys && forall y {:trigger g[y]} {:trigger h[y]} :: y in g.Keys && y != o ==> h[y] == g[y]
  }

  /** `x` became a child of `o`, and nothing else did. */
  ghost predicate Edited(g: Graph, h: Graph, o: JSONValue, x: JSONValue) {
    && SameBut(g, h, o) && x in g.Keys && x in Kids(h[o])
    && forall y :: y in Kids(h[o]) ==> y == x || y in Kids(g[o])
  }

  // ------------------------------------------------------------------
  //  Paths
  // ------------------------------------------------------------------

  /** A path that only ends at `o` does not depend on the children of `o`. */
  lemma {:induction false} SamePath(g: Graph, h: Graph, o: JSONValue, p: seq<JSONValue>)
    requires SameBut(g, h, o) && Path(g, p) && o !in p[..|p| - 1]
    ensures Path(h, p)
  {
    forall i | 0 <= i < |p| - 1 ensures p[i + 1] in Kids(h[p[i]]) {
      assert p[..|p| - 1][i] == p[i];
    }
  }

  lemma {:induction false} FirstVisit(g: Graph, p: seq<JSONValue>, o: JSONValue) returns (q: seq<JSONValue>)
    requires Path(g, p) && o in p
    ensures Leads(g, q, p[0], o) && o !in q[..|q| - 1]
  {
    if p[0] == o {
      q := [o];
    } else {
      assert p == [p[0]] + p[1..] && o in p[1..];
      PathTail(g, p, 1);
      var rest := FirstVisit(g, p[1..], o);
      q := [p[0]] + rest;
      assert q[..|q| - 1] == [p[0]] + rest[..|rest| - 1];
      assert p[1] in Kids(g[p[0]]);
    }
  }

  lemma {:induction false} JoinPaths(g: Graph, p: seq<JSONValue>, q: seq<JSONValue>)
    requires Path(g, p) && Path(g, q) && q[0] in Kids(g[p[|p| - 1]])
    ensures Path(g, p + q)
  {
    forall i | 0 <= i < |p + q| - 1 ensures (p + q)[i + 1] in Kids(g[(p + q)[i]]) {
      if i >= |p| {
        assert q[i - |p| + 1] in Kids(g[q[i - |p|]]);
      }
    }
  }

  lemma {:induction false} PartOfPath(g: Graph, p: seq<JSONValue>, i: nat, j: nat)
    requires Path(g, p) && i < j <= |p|
    ensures Path(g, p[i..j])
  {
    forall k | 0 <= k < j - i - 1 ensures p[i..j][k + 1] in Kids(g[p[i..j][k]]) {
      assert p[i + k + 1] in Kids(g[p[i + k]]);
    }
  }

  /** A lasso that stops where it comes back for the first time. */
  lemma {:induction false} FirstReturn(g: Graph, p: seq<JSONValue>) returns (q: seq<JSONValue>)
    requires Lasso(g, p)
    ensures Lasso(g, q) && q[0] == p[0] && NoDup(q[..|q| - 1])
    decreases |p|
  {
    if NoDup(p[..|p| - 1]) {
      q := p;
    } else {
      var i, j :| 0 <= i < j < |p| - 1 && p[..|p| - 1][i] == p[..|p| - 1][j];
      ShorterLasso(g, p, i, j);
      hide Path, Lasso;
      q := FirstReturn(g, p[0..j + 1]);
    }
  }

  lemma {:induction false} ShorterLasso(g: Graph, p: seq<JSONValue>, i: nat, j: nat)
    requires Path(g, p) && i < j < |p| && p[i] == p[j]
    ensures Lasso(g, p[0..j + 1])
  {
    PartOfPath(g, p, 0, j + 1);
    assert p[0..j + 1][..j][i] == p[i];
  }

  // ------------------------------------------------------------------
  //  Setting a child
  // ------------------------------------------------------------------

  lemma {:induction false} StillClosed(g: Graph, h: Graph, o: JSONValue, x: JSONValue)
    requires Closed(g) && Edited(g, h, o, x)
    ensures Closed(h)
  {
    forall y {:trigger h[y]} | y in h.Keys ensures AllIn(Kids(h[y]), h.Keys) {
      assert AllIn(Kids(g[y]), g.Keys);
      forall i | 0 <= i < |Kids(h[y])| ensures Kids(h[y])[i] in h.Keys {
        assert Kids(h[y])[i] in Kids(h[y]);
      }
    }
  }

  /** With `x` below it `o` would lie above a cycle: `x` leads back to it, or to a cycle of its own. */
  ghost predicate ClosesCycle(g: Graph, o: JSONValue, x: JSONValue) {
    Reaches(g, x, o) || exists p :: LassoFrom(g, p, x)
  }

  ghost predicate LassoFrom(g: Graph, older p: seq<JSONValue>, x: JSONValue) {
    Lasso(g, p) && p[0] == x
  }

  /** A cycle that is there already, below the new child. */
  lemma {:induction false} EditLeadsToCycle(g: Graph, h: Graph, o: JSONValue, x: JSONValue, r: JSONValue, q: seq<JSONValue>) returns (p: seq<JSONValue>)
    requires Edited(g, h, o, x) && Reaches(g, r, o) && !Reaches(g, x, o) && Lasso(g, q) && q[0] == x
    ensures Lasso(h, p) && p[0] == r
  {
    var a :| Leads(g, a, r, o);
    a := FirstVisit(g, a, o);
    if o in q {
      var b := FirstVisit(g, q, o);
      assert false;
    }
    SamePath(g, h, o, a);
    SamePath(g, h, o, q);
    JoinPaths(h, a, q);
    p := a + q;
    var j :| 0 <= j < |q| - 1 && q[..|q| - 1][j] == q[|q| - 1];
    assert p[..|p| - 1][|a| + j] == q[j];
  }

  /** The new child closes a cycle that can be reached from `r`. */
  lemma {:induction false} EditMakesCycle(g: Graph, h: Graph, o: JSONValue, x: JSONValue, r: JSONValue) returns (p: seq<JSONValue>)
    requires Edited(g, h, o, x) && Reaches(g, r, o) && Reaches(g, x, o)
    ensures Lasso(h, p) && p[0] == r
  {
    var a :| Leads(g, a, r, o);
    var b :| Leads(g, b, x, o);
    a := FirstVisit(g, a, o);
    b := FirstVisit(g, b, o);
    SamePath(g, h, o, a);
    SamePath(g, h, o, b);
    JoinPaths(h, a, b);
    p := a + b;
    assert p[..|p| - 1][|a| - 1] == o;
  }

  /** A cycle that was not there goes from `o` to its new child and back. */
  lemma {:induction false} NewCycle(g: Graph, h: Graph, o: JSONValue, x: JSONValue, q: seq<JSONValue>)
    requires Edited(g, h, o, x) && Lasso(h, q) && NoDup(q[..|q| - 1])
    ensures (exists p :: Lasso(g, p) && p[0] == q[0]) || (Reaches(g, q[0], o) && ClosesCycle(g, o, x))
  {
    var n := |q| - 1;
    if o !in q[..n] {
      SamePath(h, g, o, q);
      assert Lasso(g, q);
    } else {
      var i :| 0 <= i < n && q[..n][i] == o;
      if q[i + 1] != x {
        OldEdge(g, h, o, x, q, i);
        assert Lasso(g, q);
      } else {
        hide Edited, Path, NoDup;
        ComesTo(g, h, o, q, i);
        var j :| 0 <= j < n && q[..n][j] == q[n];
        ThereAndBack(g, h, o, x, q, i, j);
      }
    }
  }

  lemma {:induction false} OldEdge(g: Graph, h: Graph, o: JSONValue, x: JSONValue, q: seq<JSONValue>, i: nat)
    requires Edited(g, h, o, x) && Path(h, q) && i < |q| - 1 && NoDup(q[..|q| - 1]) && q[i] == o && q[i + 1] != x
    ensures Path(g, q)
  {
    hide NoDup;
    ComesAndGoes(g, h, o, q, i);
    assert q[i + 1] in Kids(h[q[i]]);
    JoinPaths(g, q[0..i + 1], q[i + 1..|q|]);
    assert q[0..i + 1] + q[i + 1..|q|] == q;
  }

  lemma {:induction false} ComesTo(g: Graph, h: Graph, o: JSONValue, q: seq<JSONValue>, i: nat)
    requires SameBut(g, h, o) && Path(h, q) && i < |q| - 1 && NoDup(q[..|q| - 1]) && q[i] == o
    ensures Reaches(g, q[0], o)
  {
    hide NoDup;
    ComesAndGoes(g, h, o, q, i);
    assert Leads(g, q[0..i + 1], q[0], o);
  }

  /** Both sides of the only visit to `o`. */
  lemma {:induction false} ComesAndGoes(g: Graph, h: Graph, o: JSONValue, q: seq<JSONValue>, i: nat)
    requires SameBut(g, h, o) && Path(h, q) && i < |q| - 1 && NoDup(q[..|q| - 1]) && q[i] == o
    ensures Path(g, q[0..i + 1]) && Path(g, q[i + 1..|q|])
    ensures forall k :: 0 <= k < |q| - 1 && k != i ==> q[k] != o
  {
    var n := |q| - 1;
    forall k | 0 <= k < n && k != i ensures q[k] != o {
      assert q[..n][k] == q[k] && q[..n][i] == q[i];
    }
    PartOfPath(h, q, 0, i + 1);
    PartOfPath(h, q, i + 1, n + 1);
    SamePath(h, g, o, q[0..i + 1]);
    SamePath(h, g, o, q[i + 1..n + 1]);
  }

  lemma {:induction false} ThereAndBack(g: Graph, h: Graph, o: JSONValue, x: JSONValue, q: seq<JSONValue>, i: nat, j: nat)
    requires Edited(g, h, o, x) && Path(h, q) && NoDup(q[..|q| - 1]) && i < |q| - 1 && j < |q| - 1
    requires q[i] == o && q[i + 1] == x && q[j] == q[|q| - 1]
    ensures ClosesCycle(g, o, x)
  {
    ComesAndGoes(g, h, o, q, i);
    var way, back := q[0..i + 1], q[i + 1..|q|];
    hide NoDup, SameBut, Edited;
    if j > i {
      assert back[..|back| - 1][j - i - 1] == q[j];
      assert LassoFrom(g, back, x);
    } else if j == i {
      assert Leads(g, back, x, o);
    } else {
      WayOn(g, way, back, j);
      assert Leads(g, back + way[j + 1..], x, o);
    }
  }

  lemma {:induction false} WayOn(g: Graph, way: seq<JSONValue>, back: seq<JSONValue>, j: nat)
    requires Path(g, way) && Path(g, back) && j < |way| - 1 && way[j] == back[|back| - 1]
    ensures Path(g, back + way[j + 1..])
  {
    PartOfPath(g, way, j + 1, |way|);
    assert way[j + 1] in Kids(g[way[j]]);
    assert way[j + 1..|way|] == way[j + 1..];
    JoinPaths(g, back, way[j + 1..]);
  }

  /** After `x` was made a child of `o`, a value `r` that could be printed still can exactly when no
      cycle came to lie below it: `r` does not lead to `o`, or `x` leads neither to `o` nor to a cycle
      of its own. */
  lemma {:induction false} EditKeepsPrintable(g: Graph, h: Graph, o: JSONValue, x: JSONValue, r: JSONValue)
    requires Closed(g) && Edited(g, h, o, x) && r in g.Keys
    requires Unfold(g, r, {}).Done?
    ensures Closed(h) && (Unfold(h, r, {}).Done? <==> !(Reaches(g, r, o) && (Reaches(g, x, o) || Unfold(g, x, {}).Cyclical?)))
  {
    hide Unfold, Closed;
    StillClosed(g, h, o, x);
    CycleGuard(g, r);
    CycleGuard(g, x);
    CycleGuard(h, r);
    if Reaches(g, r, o) && Reaches(g, x, o) {
      var p := EditMakesCycle(g, h, o, x, r);
    } else if Reaches(g, r, o) && Unfold(g, x, {}).Cyclical? {
      var q :| Lasso(g, q) && q[0] == x;
      var p := EditLeadsToCycle(g, h, o, x, r, q);
    } else if Unfold(h, r, {}).Cyclical? {
      var p :| Lasso(h, p) && p[0] == r;
      p := FirstReturn(h, p);
      NewCycle(g, h, o, x, p);
    }
  }

  lemma {:induction false} PutKids(es: seq<Entry<JSONValue>>, name: Text, x: JSONValue)
    ensures x in EntryValues(Put(es, name, x))
    ensures forall y :: y in EntryValues(Put(es, name, x)) ==> y == x || y in EntryValues(es)
  {
    hide Less;
    var r := Put(es, name, x);
    assert EntryValues(r) == [r[0].value] + EntryValues(r[1..]);
    if es != [] {
      assert EntryValues(es) == [es[0].value] + EntryValues(es[1..]);
      if !Less(name, es[0].name) && es[0].name != name {
        PutKids(es[1..], name, x);
      }
    }
  }

  lemma {:induction false} EraseKids(es: seq<Entry<JSONValue>>, name: Text)
    ensures forall y :: y in EntryValues(Erase(es, name)) ==> y in EntryValues(es)
  {
    if es != [] && es[0].name != name {
      EraseKids(es[1..], name);
      assert EntryValues(Erase(es, name)) == [es[0].value] + EntryValues(Erase(es[1..], name));
      assert EntryValues(es) == [es[0].value] + EntryValues(es[1..]);
    }
  }

  /** The same for a call of `set_member()` with a value. */
  lemma {:induction false} MemberKeepsPrintable(g: Graph, o: JSONValue, name: Text, x: JSONValue, r: JSONValue)
    requires Closed(g) && o in g.Keys && x in g.Keys && r in g.Keys && g[o].Members?
    requires Unfold(g, r, {}).Done?
    ensures var h := g[o := Members(Put(g[o].members, name, x))];
      Closed(h) && (Unfold(h, r, {}).Done? <==> !(Reaches(g, r, o) && (Reaches(g, x, o) || Unfold(g, x, {}).Cyclical?)))
  {
    hide Unfold, Closed, Put, Reaches;
    PutKids(g[o].members, name, x);
    EditKeepsPrintable(g, g[o := Members(Put(g[o].members, name, x))], o, x, r);
  }

  /** And for a call of `set_item()`. */
  lemma {:induction false} ItemKeepsPrintable(g: Graph, o: JSONValue, idx: nat, x: JSONValue, r: JSONValue)
    requires Closed(g) && o in g.Keys && x in g.Keys && r in g.Keys && g[o].Items? && idx <= |g[o].items|
    requires Unfold(g, r, {}).Done?
    ensures var items := if idx == |g[o].items| then g[o].items + [x] else g[o].items[idx := x]; var h := g[o := Items(items)];
      Closed(h) && (Unfold(h, r, {}).Done? <==> !(Reaches(g, r, o) && (Reaches(g, x, o) || Unfold(g, x, {}).Cyclical?)))
  {
    hide Unfold, Closed, Reaches;
    var items := if idx == |g[o].items| then g[o].items + [x] else g[o].items[idx := x];
    assert items[idx] == x;
    EditKeepsPrintable(g, g[o := Items(items)], o, x, r);
  }

  /** Removing a member never makes a value unprintable. */
  lemma {:induction false} EraseKeepsPrintable(g: Graph, o: JSONValue, name: Text, r: JSONValue)
    requires Closed(g) && o in g.Keys && r in g.Keys && g[o].Members? && Unfold(g, r, {}).Done?
    ensures var h := g[o := Members(Erase(g[o].members, name))];
      Closed(h) && Unfold(h, r, {}).Done?
  {
    hide Unfold, Erase;
    var h := g[o := Members(Erase(g[o].members, name))];
    EraseKids(g[o].members, name);
    assert Closed(h) by {
      forall y {:trigger h[y]} | y in h.Keys ensures AllIn(Kids(h[y]), h.Keys) {
        assert AllIn(Kids(g[y]), g.Keys);
        forall i | 0 <= i < |Kids(h[y])| ensures Kids(h[y])[i] in h.Keys {
          assert Kids(h[y])[i] in Kids(h[y]);
        }
      }
    }
    CycleGuard(g, r);
    CycleGuard(h, r);
    assert forall p :: Lasso(h, p) ==> Lasso(g, p);
  }

  // ------------------------------------------------------------------
  //  A new leaf
  // ------------------------------------------------------------------

  /** `h` is `g` with the new value `x`, which has no children, as a member of `o`. */
  ghost predicate NewLeaf(g: Graph, h: Graph, o: JSONValue, name: Text, x: JSONValue) {
    && o in g.Keys && g[o].Members? && x !in g.Keys && h.Keys == g.Keys + {x} && Kids(h[x]) == []
    && h[o] == Members(Put(g[o].members, name, x))
    && forall y {:trigger g[y]} {:trigger h[y]} :: y in g.Keys && y != o ==> h[y] == g[y]
  }

  lemma {:induction false} LeadsNowhere(g: Graph, x: JSONValue, o: JSONValue)
    requires x in g.Keys && Kids(g[x]) == [] && x != o
    ensures !Reaches(g, x, o)
  {
    forall p | Path(g, p) && |p| > 1 ensures Kids(g[p[0]]) != [] {
      assert p[1] in Kids(g[p[0]]);
    }
  }

  /** A new leaf closes no cycle. */
  lemma {:induction false} LeafKeepsPrintable(g: Graph, h: Graph, o: JSONValue, name: Text, x: JSONValue, r: JSONValue)
    requires Closed(g) && NewLeaf(g, h, o, name, x) && r in g.Keys && Unfold(g, r, {}).Done?
    ensures Closed(h) && Unfold(h, r, {}).Done?
  {
    hide Put;
    var m := g[x := h[x]];
    assert Closed(m) && Agree(g, m, g.Keys);
    UnfoldFrame(g, m, g.Keys, r, {}, {});
    assert m[o := Members(Put(m[o].members, name, x))] == h;
    assert m[x] == h[x] && x != o;
    LeadsNowhere(m, x, o);
    MemberKeepsPrintable(m, o, name, x, r);
  }
}
