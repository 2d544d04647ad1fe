/** Attributes named through variables, which may name other variables: the guard against
    variables that are used circularly. */
module AttributeVariables {
  import A = AttributeKinds

  type Var = nat

  /** One value of a variable: an attribute, another variable, or something that gives none. */
  datatype Item = Attr(a: A.Attribute) | Ref(v: Var) | Nothing

  type Scope = map<Var, seq<Item>>

  /** The attributes in the order they are set, and whether a loop was reported. */
  datatype Found = Found(attributes: seq<A.Attribute>, looped: bool)

  function Both(a: Found, b: Found): Found {
    Found(a.attributes + b.attributes, a.looped || b.looped)
  }

  // ------------------------------------------------------------------
  //  The search, as a function
  // ------------------------------------------------------------------

  lemma {:induction false} OneMoreOpen(s: set<Var>, open: set<Var>, v: Var)
    requires v in s && v !in open
    ensures |s - (open + {v})| < |s - open|
  {
    assert s - (open + {v}) == (s - open) - {v};
  }

  /** `open` are the variables being looked at; one that is not known gives nothing. */
  function Search(g: Scope, v: Var, open: set<Var>): Found
    decreases |g.Keys - open|, 0
  {
    if v !in g then Found([], false)
    else if v in open then Found([], true)
    else
      OneMoreOpen(g.Keys, open, v);
      SearchItems(g, g[v], open + {v})
  }

  function SearchItems(g: Scope, items: seq<Item>, open: set<Var>): Found
    decreases |g.Keys - open|, |items|
  {
    if items == [] then Found([], false)
    else
      Both(match items[0]
           case Attr(a) => Found([a], false)
           case Ref(w) => Search(g, w, open)
           case Nothing => Found([], false),
           SearchItems(g, items[1..], open))
  }

  function SetAll(s: set<A.Attribute>, attributes: seq<A.Attribute>): set<A.Attribute>
    decreases |attributes|
  {
    if attributes == [] then s else SetAll(A.Put(s, attributes[0], true), attributes[1..])
  }

  lemma {:induction false} SetAllSplit(s: set<A.Attribute>, a: seq<A.Attribute>, b: seq<A.Attribute>)
    ensures SetAll(s, a + b) == SetAll(SetAll(s, a), b)
    decreases |a|
  {
    hide A.Put;
    if a == [] {
      assert a + b == b;
    } else {
      assert (a + b)[1..] == a[1..] + b;
      SetAllSplit(A.Put(s, a[0], true), a[1..], b);
    }
  }

  // ------------------------------------------------------------------
  //  The code
  // ------------------------------------------------------------------

  /** The flags on the variables, and the attributes of the node. */
  class Finder {
    const scope: Scope
    var looking: set<Var>
    var attributes: set<A.Attribute>

    constructor (scope: Scope)
      ensures this.scope == scope && looking == {} && attributes == {}
    {
      this.scope, looking, attributes := scope, {}, {};
    }

    /** The flag of each variable is set while its values are looked at, and is as it was at the
        end; a variable whose flag is set already is reported and left alone. */
    method IdentifierToAttrs(v: Var) returns (looped: bool)
      modifies this
      ensures looking == old(looking)
      ensures var f := Search(scope, v, old(looking));
        looped == f.looped && attributes == SetAll(old(attributes), f.attributes)
      decreases |scope.Keys - looking|
    {
      hide A.Put, Search, SearchItems;
      SearchStep(scope, v, looking);
      if v !in scope {
        return false;
      }
      if v in looking {
        return true;
      }
      OneMoreOpen(scope.Keys, looking, v);
      ghost var open, before := looking, attributes;
      looking := looking + {v};
      looped := false;
      var items := scope[v];
      var i := 0;
      ghost var done := Found([], false);
      ghost var all := SearchItems(scope, items, looking);
      assert items[0..] == items && Both(done, all) == all by { Neutral(all); }
      while i < |items|
        invariant 0 <= i <= |items| && looking == open + {v}
        invariant all == Both(done, SearchItems(scope, items[i..], open + {v}))
        invariant looped == done.looped && attributes == SetAll(before, done.attributes)
      {
        ItemStep(scope, items, i, open + {v}, done);
        var one := false;
        ghost var found := ItemFound(scope, items[i], open + {v});
        SetAllSplit(before, done.attributes, found.attributes);
        match items[i] {
          case Attr(a) => SetAttribute(a);
          case Ref(w) => one := IdentifierToAttrs(w);
          case Nothing =>
        }
        done := Both(done, found);
        looped := looped || one;
        i := i + 1;
      }
      NoItems(scope, open + {v}, done);
      assert items[i..] == [];
      looking := looking - {v};
      assert looking == open;
    }

    method SetAttribute(a: A.Attribute)
      modifies `attributes
      ensures attributes == SetAll(old(attributes), [a])
    {
      assert [a][1..] == [];
      if A.Rivals(a) !! attributes {
        attributes := attributes + {a};
      }
    }
  }

  function ItemFound(g: Scope, item: Item, open: set<Var>): Found {
    match item
    case Attr(a) => Found([a], false)
    case Ref(w) => Search(g, w, open)
    case Nothing => Found([], false)
  }

  lemma {:induction false} Neutral(f: Found)
    ensures Both(Found([], false), f) == f && Both(f, Found([], false)) == f
  {
  }

  lemma {:induction false} SearchStep(g: Scope, v: Var, open: set<Var>)
    ensures v !in g ==> Search(g, v, open) == Found([], false)
    ensures v in g && v in open ==> Search(g, v, open) == Found([], true)
    ensures v in g && v !in open ==> Search(g, v, open) == SearchItems(g, g[v], open + {v})
  {
  }

  lemma {:induction false} ItemStep(g: Scope, items: seq<Item>, i: nat, open: set<Var>, done: Found)
    requires i < |items|
    ensures Both(done, SearchItems(g, items[i..], open))
      == Both(Both(done, ItemFound(g, items[i], open)), SearchItems(g, items[i + 1..], open))
  {
    hide Search;
    assert items[i..][1..] == items[i + 1..];
    var a, b, c := done.attributes, ItemFound(g, items[i], open).attributes, SearchItems(g, items[i + 1..], open).attributes;
    assert a + (b + c) == a + b + c;
  }

  lemma {:induction false} NoItems(g: Scope, open: set<Var>, done: Found)
    ensures Both(done, SearchItems(g, [], open)) == done
  {
    Neutral(done);
  }

  // ------------------------------------------------------------------
  //  What is found
  // ------------------------------------------------------------------

  /** Each variable of `p` names the next one. */
  ghost predicate Chain(g: Scope, p: seq<Var>) {
    && (forall i :: 0 <= i < |p| ==> p[i] in g)
    && forall i :: 0 <= i < |p| - 1 ==> Ref(p[i + 1]) in g[p[i]]
  }

  ghost predicate NoRepeat(p: seq<Var>) {
    forall i, j :: 0 <= i < j < |p| ==> p[i] != p[j]
  }

  ghost predicate ChainTo(g: Scope, p: seq<Var>, v: Var, a: A.Attribute) {
    p != [] && Chain(g, p) && p[0] == v && Attr(a) in g[p[|p| - 1]]
  }

  lemma {:induction false} ItemIsFound(g: Scope, items: seq<Item>, item: Item, open: set<Var>)
    requires item in items
    ensures var all := SearchItems(g, items, open);
      && (forall a :: a in ItemFound(g, item, open).attributes ==> a in all.attributes)
      && (ItemFound(g, item, open).looped ==> all.looped)
  {
    hide Search;
    if item != items[0] {
      ItemIsFound(g, items[1..], item, open);
    }
  }

  lemma {:induction false} FoundInItem(g: Scope, items: seq<Item>, open: set<Var>, a: A.Attribute) returns (item: Item)
    requires a in SearchItems(g, items, open).attributes
    ensures item in items && a in ItemFound(g, item, open).attributes
  {
    hide Search;
    if a in ItemFound(g, items[0], open).attributes {
      item := items[0];
    } else {
      item := FoundInItem(g, items[1..], open, a);
    }
  }

  /** What is found is at the end of a chain. */
  lemma {:induction false} FoundHasChain(g: Scope, v: Var, open: set<Var>, a: A.Attribute) returns (p: seq<Var>)
    requires a in Search(g, v, open).attributes
    ensures ChainTo(g, p, v, a)
    decreases |g.Keys - open|
  {
    OneMoreOpen(g.Keys, open, v);
    var item := FoundInItem(g, g[v], open + {v}, a);
    if item.Attr? {
      p := [v];
    } else {
      p := FoundHasChain(g, item.v, open + {v}, a);
      p := [v] + p;
    }
  }

  lemma {:induction false} ChainTail(g: Scope, p: seq<Var>, v: Var, a: A.Attribute)
    requires ChainTo(g, p, v, a) && |p| > 1
    ensures ChainTo(g, p[1..], p[1], a) && Ref(p[1]) in g[v]
  {
    var q := p[1..];
    assert forall i :: 0 <= i < |q| ==> q[i] == p[i + 1];
  }

  /** A chain without repetition, clear of the open variables, is followed to its end. */
  lemma {:induction false} ChainIsFollowed(g: Scope, p: seq<Var>, v: Var, open: set<Var>, a: A.Attribute)
    requires ChainTo(g, p, v, a) && NoRepeat(p) && forall i :: 0 <= i < |p| ==> p[i] !in open
    ensures a in Search(g, v, open).attributes
    decreases |p|
  {
    hide SearchItems;
    SearchStep(g, v, open);
    if |p| == 1 {
      ItemIsFound(g, g[v], Attr(a), open + {v});
    } else {
      ChainTail(g, p, v, a);
      var q := p[1..];
      assert NoRepeat(q) && forall i :: 0 <= i < |q| ==> q[i] != p[0];
      ChainIsFollowed(g, q, p[1], open + {v}, a);
      ItemIsFound(g, g[v], Ref(p[1]), open + {v});
    }
  }

  /** A chain with a repetition can be cut short. */
  lemma {:induction false} Shorten(g: Scope, p: seq<Var>, v: Var, a: A.Attribute) returns (q: seq<Var>)
    requires ChainTo(g, p, v, a)
    ensures ChainTo(g, q, v, a) && NoRepeat(q)
    decreases |p|
  {
    if NoRepeat(p) {
      q := p;
    } else {
      var i, j :| 0 <= i < j < |p| && p[i] == p[j];
      var r := p[..i] + p[j..];
      forall k | 0 <= k < |r| ensures r[k] == p[if k < i then k else k + (j - i)] {
      }
      forall k | 0 <= k < |r| - 1 ensures Ref(r[k + 1]) in g[r[k]] {
        if k + 1 == i {
          assert Ref(p[i]) in g[p[k]];
        } else {
          assert Ref(p[if k < i then k + 1 else k + 1 + (j - i)]) in g[p[if k < i then k else k + (j - i)]];
        }
      }
      q := Shorten(g, r, v, a);
    }
  }

  /** The guard loses nothing: an attribute is found exactly when some chain of variables leads to
      it, whether or not the variables loop. */
  lemma {:induction false} EveryAttributeIsFound(g: Scope, v: Var, a: A.Attribute)
    ensures a in Search(g, v, {}).attributes <==> exists p :: ChainTo(g, p, v, a)
  {
    if a in Search(g, v, {}).attributes {
      var p := FoundHasChain(g, v, {}, a);
    }
    if p :| ChainTo(g, p, v, a) {
      var q := Shorten(g, p, v, a);
      ChainIsFollowed(g, q, v, {}, a);
    }
  }

  // ------------------------------------------------------------------
  //  What is reported
  // ------------------------------------------------------------------

  ghost function Elements(p: seq<Var>): set<Var> {
    set x | x in p
  }

  /** A chain that comes back to a variable it went through. */
  ghost predicate Lasso(g: Scope, p: seq<Var>) {
    p != [] && Chain(g, p) && p[|p| - 1] in p[..|p| - 1]
  }

  lemma {:induction false} LoopedItem(g: Scope, items: seq<Item>, open: set<Var>) returns (item: Item)
    requires SearchItems(g, items, open).looped
    ensures item in items && ItemFound(g, item, open).looped
  {
    hide Search;
    if ItemFound(g, items[0], open).looped {
      item := items[0];
    } else {
      item := LoopedItem(g, items[1..], open);
    }
  }

  lemma {:induction false} Extend(g: Scope, p: seq<Var>, w: Var)
    requires p != [] && Chain(g, p) && w in g && Ref(w) in g[p[|p| - 1]]
    ensures var r := p + [w];
      Chain(g, r) && r[|r| - 1] == w && Elements(r[..|r| - 1]) == Elements(p[..|p| - 1]) + {p[|p| - 1]}
  {
    var r := p + [w];
    assert r[..|r| - 1] == p == p[..|p| - 1] + [p[|p| - 1]];
  }

  /** `p` leads to the variable that is looked at. */
  lemma {:induction false} LoopedHasLasso(g: Scope, p: seq<Var>) returns (q: seq<Var>)
    requires p != [] && Chain(g, p) && Search(g, p[|p| - 1], Elements(p[..|p| - 1])).looped
    ensures Lasso(g, q) && q[0] == p[0]
    decreases |g.Keys - Elements(p[..|p| - 1])|
  {
    hide Chain, SearchItems;
    var v, open := p[|p| - 1], Elements(p[..|p| - 1]);
    SearchStep(g, v, open);
    if v in open {
      q := p;
    } else {
      OneMoreOpen(g.Keys, open, v);
      var item := LoopedItem(g, g[v], open + {v});
      Extend(g, p, item.v);
      q := LoopedHasLasso(g, p + [item.v]);
    }
  }

  /** Without a report, the search went all along every chain. */
  lemma {:induction false} QuietGoesOn(g: Scope, p: seq<Var>, k: nat, open: set<Var>)
    requires Chain(g, p) && k < |p| && !Search(g, p[0], open).looped
    ensures !Search(g, p[k], open + Elements(p[..k])).looped
    decreases k
  {
    hide SearchItems;
    if k == 0 {
      assert open + Elements(p[..0]) == open;
    } else {
      var q := p[1..];
      assert Ref(p[1]) in g[p[0]];
      assert forall i :: 0 <= i < |q| ==> q[i] == p[i + 1];
      SearchStep(g, p[0], open);
      ItemIsFound(g, g[p[0]], Ref(p[1]), open + {p[0]});
      QuietGoesOn(g, q, k - 1, open + {p[0]});
      assert p[..k] == [p[0]] + q[..k - 1];
      assert open + {p[0]} + Elements(q[..k - 1]) == open + Elements(p[..k]);
    }
  }

  lemma {:induction false} QuietHasNoLasso(g: Scope, p: seq<Var>)
    requires p != [] && Chain(g, p) && !Search(g, p[0], {}).looped
    ensures !Lasso(g, p)
  {
    hide SearchItems;
    var k := |p| - 1;
    QuietGoesOn(g, p, k, {});
    var open := {} + Elements(p[..k]);
    SearchStep(g, p[k], open);
    forall i | 0 <= i < k ensures p[i] != p[k] {
      assert p[..k][i] in open;
    }
  }

  /** A loop is reported exactly when the variables loop. */
  lemma {:induction false} LoopIsReported(g: Scope, v: Var)
    requires v in g
    ensures Search(g, v, {}).looped <==> exists p :: Lasso(g, p) && p[0] == v
  {
    if Search(g, v, {}).looped {
      assert Elements([v][..0]) == {} && [v][0] == v;
      var p := LoopedHasLasso(g, [v]);
    } else {
      forall p | p != [] && Chain(g, p) && p[0] == v ensures !Lasso(g, p) {
        QuietHasNoLasso(g, p);
      }
    }
  }
}
