/** The cycle guard refuses exactly the values from which a cycle can be reached. */
module JsonCycles {
  import opened JsonText
  import opened JsonGraph

  /** Each value of `p` is a child of the one before it. */
  ghost predicate Path(g: Graph, p: seq<JSONValue>) {
    && p != [] && (forall i :: 0 <= i < |p| ==> p[i] in g.Keys)
    && forall i :: 0 <= i < |p| - 1 ==> p[i + 1] in Kids(g[p[i]])
  }

  /** A path that comes back to a value it went through. */
  ghost predicate Lasso(g: Graph, p: seq<JSONValue>) {
    Path(g, p) && p[|p| - 1] in p[..|p| - 1]
  }

  ghost function Elements(p: seq<JSONValue>): set<JSONValue> {
    set x | x in p
  }

  lemma {:induction false} SomeKidIsCyclical(g: Graph, kids: seq<JSONValue>, open: set<JSONValue>) returns (c: JSONValue)
    requires Closed(g) && AllIn(kids, g.Keys) && UnfoldAll(g, kids, open).SomeCyclical?
    ensures c in kids && c in g.Keys && Unfold(g, c, open).Cyclical?
  {
    if Unfold(g, kids[0], open).Cyclical? {
      c := kids[0];
    } else {
      c := SomeKidIsCyclical(g, kids[1..], open);
    }
  }

  lemma {:induction false} EveryKidIsDone(g: Graph, kids: seq<JSONValue>, open: set<JSONValue>, c: JSONValue)
    requires Closed(g) && AllIn(kids, g.Keys) && UnfoldAll(g, kids, open).AllDone? && c in kids
    ensures c in g.Keys && Unfold(g, c, open).Done?
  {
    if c != kids[0] {
      EveryKidIsDone(g, kids[1..], open, c);
    }
  }

  lemma {:induction false} Extend(g: Graph, p: seq<JSONValue>, c: JSONValue)
    requires Path(g, p) && c in g.Keys && c in Kids(g[p[|p| - 1]])
    ensures Path(g, p + [c]) && Elements((p + [c])[..|p|]) == Elements(p[..|p| - 1]) + {p[|p| - 1]}
  {
    var q := p + [c];
    assert q[..|p|] == p == p[..|p| - 1] + [p[|p| - 1]];
  }

  /** The exception comes with a lasso; `p` leads to the value being printed. */
  lemma {:induction false} CyclicalHasLasso(g: Graph, p: seq<JSONValue>) returns (q: seq<JSONValue>)
    requires Closed(g) && Path(g, p) && Unfold(g, p[|p| - 1], Elements(p[..|p| - 1])).Cyclical?
    ensures Lasso(g, q) && q[0] == p[0]
    decreases |g.Keys - Elements(p[..|p| - 1])|
  {
    var o, open := p[|p| - 1], Elements(p[..|p| - 1]);
    if o in open {
      q := p;
    } else {
      OneMoreOpen(g.Keys, open, o);
      var c := SomeKidIsCyclical(g, Kids(g[o]), open + {o});
      Extend(g, p, c);
      assert (p + [c])[|p|] == c;
      q := CyclicalHasLasso(g, p + [c]);
    }
  }

  lemma {:induction false} PathTail(g: Graph, p: seq<JSONValue>, k: nat)
    requires Path(g, p) && 0 < k < |p|
    ensures Path(g, p[1..]) && p[1] in Kids(g[p[0]])
    ensures Elements(p[..k]) == {p[0]} + Elements(p[1..][..k - 1])
  {
    assert p[..k] == [p[0]] + p[1..][..k - 1];
    assert forall i :: 0 <= i < |p| - 1 ==> p[1..][i] == p[i + 1];
  }

  /** A successful print went through every value on every path. */
  lemma {:induction false} DoneGoesOn(g: Graph, p: seq<JSONValue>, k: nat, open: set<JSONValue>)
    requires Closed(g) && Path(g, p) && k < |p| && Unfold(g, p[0], open).Done?
    ensures Unfold(g, p[k], open + Elements(p[..k])).Done?
    decreases k
  {
    if k == 0 {
      assert open + Elements(p[..0]) == open;
    } else {
      PathTail(g, p, k);
      EveryKidIsDone(g, Kids(g[p[0]]), open + {p[0]}, p[1]);
      DoneGoesOn(g, p[1..], k - 1, open + {p[0]});
      assert open + {p[0]} + Elements(p[1..][..k - 1]) == open + Elements(p[..k]);
    }
  }

  lemma {:induction false} DoneHasNoLasso(g: Graph, p: seq<JSONValue>)
    requires Closed(g) && Path(g, p) && Unfold(g, p[0], {}).Done?
    ensures !Lasso(g, p)
  {
    var k := |p| - 1;
    DoneGoesOn(g, p, k, {});
    var open := {} + Elements(p[..k]);
    assert p[k] in open ==> Kids(g[p[k]]) == [];
    forall i | 0 <= i < k
      ensures p[i] != p[k]
    {
      assert p[i + 1] in Kids(g[p[i]]);
      assert p[..k][i] in open;
    }
  }

  /** Printing a value with no flag set fails if and only if a cycle can be reached from it. */
  lemma {:induction false} CycleGuard(g: Graph, o: JSONValue)
    requires Closed(g) && o in g.Keys
    ensures Unfold(g, o, {}).Cyclical? <==> exists p :: Lasso(g, p) && p[0] == o
  {
    if Unfold(g, o, {}).Cyclical? {
      assert Elements([o][..0]) == {} && [o][0] == o;
      var p := CyclicalHasLasso(g, [o]);
    } else {
      forall p | Lasso(g, p) && p[0] == o
        ensures false
      {
        DoneHasNoLasso(g, p);
      }
    }
  }

  // ------------------------------------------------------------------
  //  What a value depends on
  // ------------------------------------------------------------------

  /** `g` and `h` are the same on `s`, which no pointer leaves. */
  ghost predicate Agree(g: Graph, h: Graph, s: set<JSONValue>) {
    && s <= g.Keys && s <= h.Keys
    && forall o {:trigger g[o]} :: o in s ==> g[o] == h[o] && AllIn(Kids(g[o]), s)
  }

  /** A value depends only on what can be reached from it, and only on the open containers
      that can be. */
  lemma {:induction false} UnfoldFrame(g: Graph, h: Graph, s: set<JSONValue>, o: JSONValue, open: set<JSONValue>, open': set<JSONValue>)
    requires Closed(g) && Closed(h) && Agree(g, h, s) && o in s && open * s == open' * s
    ensures Unfold(g, o, open) == Unfold(h, o, open')
    decreases |s - open|, 0
  {
    var kids := Kids(g[o]);
    assert o in open <==> o in open * s;
    assert o in open' <==> o in open' * s;
    if kids != [] && o !in open {
      OneMoreOpen(s, open, o);
      assert (open + {o}) * s == (open * s) + {o} == (open' * s) + {o} == (open' + {o}) * s;
      UnfoldAllFrame(g, h, s, kids, open + {o}, open' + {o});
    }
  }

  lemma {:induction false} UnfoldAllFrame(g: Graph, h: Graph, s: set<JSONValue>, kids: seq<JSONValue>, open: set<JSONValue>, open': set<JSONValue>)
    requires Closed(g) && Closed(h) && Agree(g, h, s) && AllIn(kids, s) && open * s == open' * s
    ensures AllIn(kids, g.Keys) && AllIn(kids, h.Keys)
    ensures UnfoldAll(g, kids, open) == UnfoldAll(h, kids, open')
    decreases |s - open|, |kids|
  {
    if kids != [] {
      UnfoldFrame(g, h, s, kids[0], open, open');
      UnfoldAllFrame(g, h, s, kids[1..], open, open');
    }
  }
}
