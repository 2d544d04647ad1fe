/** Values that are not shared: each is a child at most once. */
module JsonTrees {
  import opened Text
  import opened JsonText
  import opened OrderedMaps
  import opened JsonGraph

  /** `x` is child number `i` of `o`. */
  ghost predicate KidAt(g: Graph, older o: JSONValue, i: nat, older x: JSONValue) {
    o in g.Keys && i < |Kids(g[o])| && Kids(g[o])[i] == x
  }

  ghost predicate NotShared(g: Graph) {
    forall x, o, p, i: nat, j: nat :: KidAt(g, o, i, x) && KidAt(g, p, j, x) ==> o == p && i == j
  }

  /** The roots are different values of the graph, and children of nothing. */
  ghost predicate AreRoots(g: Graph, roots: seq<JSONValue>) {
    && (forall i :: 0 <= i < |roots| ==> roots[i] in g.Keys)
    && (forall i, j :: 0 <= i < j < |roots| ==> roots[i] != roots[j])
    && forall o, i: nat, x :: KidAt(g, o, i, x) ==> x !in roots
  }

  ghost predicate Trees(g: Graph, roots: seq<JSONValue>) {
    NotShared(g) && AreRoots(g, roots)
  }

  /** `h` is `g` and `t` side by side. */
  ghost predicate SideBySide(g: Graph, t: Graph, h: Graph) {
    && Closed(g) && Closed(t) && g.Keys !! t.Keys && h.Keys == g.Keys + t.Keys
    && (forall o {:trigger g[o]} :: o in g.Keys ==> h[o] == g[o])
    && (forall o {:trigger t[o]} :: o in t.Keys ==> h[o] == t[o])
  }

  lemma {:induction false} KidOfEither(g: Graph, t: Graph, h: Graph, o: JSONValue, i: nat, x: JSONValue)
    requires SideBySide(g, t, h) && KidAt(h, o, i, x)
    ensures (KidAt(g, o, i, x) && x in g.Keys) || (KidAt(t, o, i, x) && x in t.Keys)
  {
    if o in g.Keys {
      assert g[o] == h[o] && AllIn(Kids(g[o]), g.Keys);
    } else {
      assert t[o] == h[o] && AllIn(Kids(t[o]), t.Keys);
    }
  }

  lemma {:induction false} StillNotShared(g: Graph, t: Graph, h: Graph)
    requires SideBySide(g, t, h) && NotShared(g) && NotShared(t)
    ensures NotShared(h)
  {
    forall x, o, p, i: nat, j: nat | KidAt(h, o, i, x) && KidAt(h, p, j, x) ensures o == p && i == j {
      KidOfEither(g, t, h, o, i, x);
      KidOfEither(g, t, h, p, j, x);
    }
  }

  lemma {:induction false} OneMoreRoot(g: Graph, t: Graph, h: Graph, roots: seq<JSONValue>, o: JSONValue)
    requires SideBySide(g, t, h) && Trees(g, roots) && Trees(t, [o])
    ensures Trees(h, roots) && Trees(h, roots + [o])
  {
    StillNotShared(g, t, h);
    var all := roots + [o];
    assert [o][0] == o;
    forall p, i: nat, x | KidAt(h, p, i, x) ensures x !in all {
      KidOfEither(g, t, h, p, i, x);
    }
    assert forall k :: 0 <= k < |roots| ==> all[k] == roots[k];
  }

  /** A new container takes the roots as its children. */
  lemma {:induction false} NewRoot(g: Graph, h: Graph, roots: seq<JSONValue>, o: JSONValue)
    requires Closed(g) && Trees(g, roots) && o !in g.Keys && h.Keys == g.Keys + {o} && Kids(h[o]) == roots
    requires forall x {:trigger g[x]} :: x in g.Keys ==> h[x] == g[x]
    ensures Trees(h, [o])
  {
    forall p, i: nat, x | KidAt(h, p, i, x) ensures x in g.Keys && (if p == o then i < |roots| && roots[i] == x else KidAt(g, p, i, x)) {
      if p != o {
        assert g[p] == h[p] && AllIn(Kids(g[p]), g.Keys);
      }
    }
    assert NotShared(h);
    assert [o][0] == o;
  }

  /** The order of the roots does not matter. */
  lemma {:induction false} InsertRoot(g: Graph, roots: seq<JSONValue>, o: JSONValue, k: nat)
    requires Trees(g, roots + [o]) && k <= |roots|
    ensures Trees(g, roots[..k] + [o] + roots[k..])
  {
    var a, b := roots + [o], roots[..k] + [o] + roots[k..];
    forall i | 0 <= i < |b| ensures b[i] == a[if i < k then i else if i == k then |roots| else i - 1] {
    }
  }

  lemma {:induction false} InsertLater(x: JSONValue, rest: seq<JSONValue>, v: JSONValue, k: nat)
    requires k <= |rest|
    ensures var all := [x] + rest; [x] + (rest[..k] + [v] + rest[k..]) == all[..k + 1] + [v] + all[k + 1..]
  {
    var all := [x] + rest;
    assert all[..k + 1] == [x] + rest[..k] && all[k + 1..] == rest[k..];
  }

  /** A new key goes somewhere between the others. */
  lemma {:induction false} PutValues(es: seq<Entry<JSONValue>>, name: Text, v: JSONValue) returns (k: nat)
    requires Get(es, name) == None
    ensures k <= |es|
    ensures EntryValues(Put(es, name, v)) == EntryValues(es)[..k] + [v] + EntryValues(es)[k..]
  {
    hide Less;
    if es == [] || Less(name, es[0].name) {
      k := 0;
      assert ([Entry(name, v)] + es)[1..] == es;
    } else {
      k := PutValues(es[1..], name, v);
      var rest := EntryValues(es[1..]);
      assert EntryValues(es) == [es[0].value] + rest;
      assert ([es[0]] + Put(es[1..], name, v))[1..] == Put(es[1..], name, v);
      InsertLater(es[0].value, rest, v, k);
      k := k + 1;
    }
  }
}
