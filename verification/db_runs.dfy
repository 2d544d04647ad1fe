/** Runs of calls on the package database. */
module DatabaseRuns {
  import opened Text
  import opened OrderedMaps
  import opened JsonGraph
  import opened JsonEdits
  import opened PackageDatabase

  // ------------------------------------------------------------------
  //  What a database says
  // ------------------------------------------------------------------

  datatype Data = Data(typeName: Text, filename: Text, line: int)

  /** The names of the packages, and the data of each element of each package. */
  datatype Catalog = Catalog(packages: iset<Text>, elements: imap<(Text, Text), Data>)

  ghost function DataOf(e: Element): Data
    reads e
  {
    Data(e.typeName, e.filename, e.line)
  }

  ghost function Find(db: Database, package: Text, element: Text): Option<Data>
    reads *
  {
    FindIn(db.packages, package, element)
  }

  ghost function FindIn(packages: seq<Entry<Package>>, package: Text, element: Text): Option<Data>
    reads *
  {
    match Get(packages, package)
    case None => None
    case Some(p) => FindAmong(p.elements, element)
  }

  ghost function FindAmong(elements: seq<Entry<Element>>, element: Text): Option<Data>
    reads *
  {
    match Get(elements, element)
    case None => None
    case Some(e) => Some(DataOf(e))
  }

  ghost function View(db: Database): Catalog
    reads *
  {
    Catalog(
      iset n: Text | Get(db.packages, n).Some?,
      imap k: (Text, Text) | Find(db, k.0, k.1).Some? :: Find(db, k.0, k.1).value)
  }

  ghost function At(c: Catalog, package: Text, element: Text): Option<Data> {
    if (package, element) in c.elements then Some(c.elements[(package, element)]) else None
  }

  /** A database is known by its packages and by what it finds. */
  lemma {:induction false} ViewIs(db: Database, c: Catalog)
    requires forall n: Text :: Get(db.packages, n).Some? <==> n in c.packages
    requires forall n: Text, m: Text :: Find(db, n, m) == At(c, n, m)
    ensures View(db) == c
  {
    hide Get, FindIn;
    var v := View(db);
    assert forall k: (Text, Text) :: k == (k.0, k.1);
    forall k: (Text, Text) ensures k in v.elements <==> k in c.elements {
      assert Find(db, k.0, k.1) == At(c, k.0, k.1);
    }
    forall k: (Text, Text) | k in v.elements ensures v.elements[k] == c.elements[k] {
      assert Find(db, k.0, k.1) == At(c, k.0, k.1);
    }
    assert v.elements == c.elements;
    assert v.packages == c.packages;
  }

  lemma {:induction false} ViewSays(db: Database)
    ensures forall n: Text :: Get(db.packages, n).Some? <==> n in View(db).packages
    ensures forall n: Text, m: Text :: FindIn(db.packages, n, m) == At(View(db), n, m)
  {
    hide Get, FindIn;
    forall n: Text, m: Text ensures FindIn(db.packages, n, m) == At(View(db), n, m) {
      assert Find(db, n, m) == FindIn(db.packages, n, m);
      assert (n, m) in View(db).elements <==> Find(db, n, m).Some?;
    }
  }

  /** What is in the maps is in the sets, under its own name. */
  lemma {:induction false} AllKnown(db: Database, P: set<Package>, E: set<Element>, J: set<JSONValue>)
    requires db.Consistent(P, E, J)
    ensures forall n: Text :: Get(db.packages, n).Some? ==> Get(db.packages, n).value in P && Get(db.packages, n).value.name == n
    ensures forall p, m: Text :: p in P && Get(p.elements, m).Some? ==> Get(p.elements, m).value in E && Get(p.elements, m).value.name == m
  {
    hide Get, InOrder;
    forall n: Text | Get(db.packages, n).Some? ensures Get(db.packages, n).value in P && Get(db.packages, n).value.name == n {
      assert Listed(Get(db.packages, n), Get(db.value.members, n), n, P);
    }
    forall p, m: Text | p in P && Get(p.elements, m).Some? ensures Get(p.elements, m).value in E && Get(p.elements, m).value.name == m {
      HasItsName(p, m, E);
    }
  }

  // ------------------------------------------------------------------
  //  What a call does to a catalog
  // ------------------------------------------------------------------

  /** One of the three setters of an element. */
  datatype Field = TypeField(s: Text) | FilenameField(s: Text) | LineNumber(n: int)

  function FieldName(f: Field): Text {
    match f
    case TypeField(_) => TYPE
    case FilenameField(_) => FILENAME
    case LineNumber(_) => LINE
  }

  /** A call on the database, its packages and elements being found by name. */
  datatype Call =
    | AddPackage(package: Text)
    | AddElement(package: Text, element: Text)
    | Set(package: Text, element: Text, field: Field)

  predicate IsLegal(c: Call) {
    match c
    case AddPackage(package) => package != []
    case AddElement(_, element) => element != []
    case Set(_, _, field) => field.LineNumber? ==> -0x8000_0000 <= field.n < 0x8000_0000
  }

  /** What an element without members says. */
  function NewData(): Data {
    Data([], [], 1)
  }

  function WithField(d: Data, f: Field): Data {
    match f
    case TypeField(s) => d.(typeName := s)
    case FilenameField(s) => d.(filename := s)
    case LineNumber(n) => d.(line := n)
  }

  /** Nothing that is there is added again; nothing is set that is not there. */
  ghost function Step(c: Catalog, call: Call): Catalog {
    match call
    case AddPackage(package) => c.(packages := c.packages + iset{package})
    case AddElement(package, element) =>
      if package !in c.packages || (package, element) in c.elements then c
      else c.(elements := c.elements[(package, element) := NewData()])
    case Set(package, element, field) =>
      if (package, element) !in c.elements then c
      else c.(elements := c.elements[(package, element) := WithField(c.elements[(package, element)], field)])
  }

  ghost function Steps(c: Catalog, calls: seq<Call>): Catalog {
    if calls == [] then c else Step(Steps(c, calls[..|calls| - 1]), calls[|calls| - 1])
  }

  // ------------------------------------------------------------------
  //  Adding a package
  // ------------------------------------------------------------------

  lemma {:induction false} AddedPackage(packages: seq<Entry<Package>>, members: Members, name: Text, p: Package, P: set<Package>)
    requires InOrder(packages) && InOrder(members) && Get(packages, name) == None && p.name == name
    requires forall n: Text :: Listed(Get(packages, n), Get(members, n), n, P)
    ensures InOrder(Put(packages, name, p)) && InOrder(Put(members, name, p.json))
    ensures forall n: Text :: Listed(Get(Put(packages, name, p), n), Get(Put(members, name, p.json), n), n, P + {p})
    ensures !Listed(Get(Put(packages, name, p), name), Get(members, name), name, P + {p})
  {
    hide InOrder, Put, Get;
    PutInOrder(packages, name, p);
    PutInOrder(members, name, p.json);
    assert Listed(Get(packages, name), Get(members, name), name, P);
    PutGet(packages, name, p, name);
    forall n: Text ensures Listed(Get(Put(packages, name, p), n), Get(Put(members, name, p.json), n), n, P + {p}) {
      assert Listed(Get(packages, n), Get(members, n), n, P);
      PutGet(packages, name, p, n);
      PutGet(members, name, p.json, n);
    }
  }

  /** `x` is a new value below `o`. */
  ghost predicate Grew(g: Graph, open: set<JSONValue>, J: set<JSONValue>, o: JSONValue, name: Text, x: JSONValue)
    reads J`items, J`members, J`saving
  {
    NewLeaf(g, Snapshot(J), o, name, x) && Open(J) == open
  }

  lemma {:induction false} ItGrew(g: Graph, open: set<JSONValue>, J: set<JSONValue>, o: JSONValue, name: Text, x: JSONValue)
    requires g.Keys == J && o in J && x !in J && o.kind == KObject && !x.saving && Open(J) == open
    requires g[o].Members? && o.members == Put(g[o].members, name, x) && Kids(x.GetCell()) == []
    requires forall y :: y in J && y != o ==> y.GetCell() == g[y]
    ensures Grew(g, open, J + {x}, o, name, x)
  {
    hide Put;
  }

  /** A tree that could be printed still can. */
  lemma {:induction false} StillPrintable(root: JSONValue, g: Graph, J: set<JSONValue>, o: JSONValue, name: Text, x: JSONValue)
    requires root in g.Keys && Closed(g) && Unfold(g, root, {}).Done? && Grew(g, {}, J, o, name, x)
    ensures CanBePrinted(root, J)
  {
    hide Unfold, Put;
    LeafKeepsPrintable(g, Snapshot(J), o, name, x, root);
  }

  lemma {:induction false} EmptyPackage(p: Package, E: set<Element>)
    requires p.json.kind == KObject && p.json.members == [] && p.elements == []
    ensures p.Agrees(E)
  {
  }

  /** A package is added consistently exactly when its name is not empty, or is there already. */
  method PerformAddPackage(db: Database, name: Text, ghost P: set<Package>, ghost E: set<Element>, ghost J: set<JSONValue>)
    returns (r: Outcome, ghost P': set<Package>, ghost J': set<JSONValue>)
    requires db.Consistent(P, E, J)
    modifies db, db.json, db.value
    ensures r == Changed <==> name != [] || Get(old(db.packages), name).Some?
    ensures fresh(P' - P) && fresh(J' - J) && db.value == old(db.value) && db.json == old(db.json)
    ensures r == Changed ==> db.Consistent(P', E, J') && (old(db.Printable(J)) ==> db.Printable(J'))
    ensures r != Changed ==> !db.Consistent(P', E, J')
    ensures View(db) == Step(old(View(db)), Call.AddPackage(name))
  {
    hide InOrder, Put, Get, Package.Agrees, Element.Agrees, Unfold, Grew, Apart, OneHome, View, Step;
    P', J' := P, J;
    ghost var root: JSONValue, g, printable := db.value, Snapshot(J), db.Printable(J);
    ghost var before, view := db.packages, View(db);
    ViewSays(db);
    AllKnown(db, P, E, J);
    ghost var p;
    p, r := AddToPackages(db, name, P, E, J);
    if p != null {
      P', J' := P + {p}, J + {p.json};
      if printable && r == Changed {
        StillPrintable(root, g, J', root, name, p.json);
      }
    }
    assert forall n: Text, m: Text :: FindIn(before, n, m) == old(FindIn(db.packages, n, m));
    SeenPackage(db, p, name, before, view);
  }

  lemma {:induction false} SeenPackage(db: Database, p: Package?, name: Text, before: seq<Entry<Package>>, c: Catalog)
    requires p == null ==> Get(before, name).Some? && db.packages == before
    requires p != null ==> Get(before, name) == None && p.elements == [] && db.packages == Put(before, name, p)
    requires forall n: Text :: Get(before, n).Some? <==> n in c.packages
    requires forall n: Text, m: Text :: FindIn(before, n, m) == At(c, n, m)
    ensures View(db) == Step(c, Call.AddPackage(name))
  {
    hide Put, Get, At, View;
    var c' := Step(c, Call.AddPackage(name));
    forall n: Text ensures Get(db.packages, n).Some? <==> n in c'.packages {
      if p != null {
        PutGet(before, name, p, n);
      }
    }
    forall n: Text, m: Text ensures Find(db, n, m) == At(c', n, m) {
      assert FindIn(before, n, m) == At(c, n, m);
      SameAt(c, c', n, m);
      if p != null {
        PutGet(before, name, p, n);
        GetNothing<Element>(m);
      }
    }
    ViewIs(db, c');
  }

  lemma {:induction false} GetNothing<V>(n: Text)
    ensures Get<V>([], n) == None
  {
  }

  lemma {:induction false} SameAt(c: Catalog, d: Catalog, n: Text, m: Text)
    requires c.elements == d.elements
    ensures At(c, n, m) == At(d, n, m)
  {
  }

  /** `p` is the new package, if there is one. */
  method AddToPackages(db: Database, name: Text, ghost P: set<Package>, ghost E: set<Element>, ghost J: set<JSONValue>)
    returns (ghost p: Package?, r: Outcome)
    requires db.Consistent(P, E, J)
    modifies db, db.json, db.value
    ensures r == Changed <==> name != [] || Get(old(db.packages), name).Some?
    ensures db.value == old(db.value) && db.json == old(db.json)
    ensures p == null <==> Get(old(db.packages), name).Some?
    ensures p == null ==> db.Consistent(P, E, J) && Snapshot(J) == old(Snapshot(J)) && Open(J) == old(Open(J))
    ensures db.packages == if p == null then old(db.packages) else Put(old(db.packages), name, p)
    ensures p != null ==> fresh(p) && fresh(p.json) && p.elements == []
    ensures p != null && r == Changed ==> db.Consistent(P + {p}, E, J + {p.json}) && Grew(old(Snapshot(J)), old(Open(J)), J + {p.json}, db.value, name, p.json)
    ensures p != null && r != Changed ==> !db.Consistent(P + {p}, E, J + {p.json})
  {
    hide InOrder, Put, Get, Package.Agrees, Element.Agrees, OneHome, Grew;
    ghost var packages, members, g, open := db.packages, db.value.members, Snapshot(J), Open(J);
    var q;
    q, r := db.AddPackage(name);
    p := null;
    if Get(packages, name) == None {
      p := q;
      AddedPackage(packages, members, name, p, P);
      EmptyPackage(p, E);
      OneMoreHome(P, p);
      if r == Changed {
        ItGrew(g, open, J, db.value, name, p.json);
      }
    }
  }

  lemma {:induction false} OneMoreHome(P: set<Package>, p: Package)
    requires OneHome(P) && p.elements == []
    ensures OneHome(P + {p})
  {
  }

  /** The same, when `p` had those elements. */
  ghost predicate HadOneHome(P: set<Package>, p: Package, elements: seq<Entry<Element>>)
    reads P
  {
    && (forall q, r, n: Text {:trigger Get(q.elements, n), Get(r.elements, n)} ::
          q in P && r in P && q != p && r != p && Get(q.elements, n).Some? && Get(q.elements, n) == Get(r.elements, n) ==> q == r)
    && forall q, n: Text {:trigger Get(q.elements, n)} ::
          q in P && q != p && Get(q.elements, n).Some? ==> Get(q.elements, n) != Get(elements, n)
  }

  lemma {:induction false} OneMoreElement(P: set<Package>, E: set<Element>, p: Package, elements: seq<Entry<Element>>, name: Text, e: Element)
    requires HadOneHome(P, p, elements) && e !in E && p.elements == Put(elements, name, e)
    requires forall q :: q in P && q != p ==> q.Agrees(E)
    ensures OneHome(P)
  {
    hide Put, Get, Package.Agrees;
    forall q, n: Text | q in P && q != p && Get(q.elements, n).Some?
      ensures Get(q.elements, n) != Get(p.elements, n)
    {
      HasItsName(q, n, E);
      PutGet(elements, name, e, n);
    }
  }

  lemma {:induction false} MoreElements(members: Members, elements: seq<Entry<Element>>, E: set<Element>, e: Element)
    requires forall n: Text :: Indexed(Get(elements, n), Get(members, n), n, E)
    ensures forall n: Text :: Indexed(Get(elements, n), Get(members, n), n, E + {e})
  {
    hide Get;
    forall n: Text ensures Indexed(Get(elements, n), Get(members, n), n, E + {e}) {
      assert Indexed(Get(elements, n), Get(members, n), n, E);
    }
  }

  lemma {:induction false} StillAgrees(p: Package, E: set<Element>, e: Element)
    requires p.Agrees(E)
    ensures p.Agrees(E + {e})
  {
    MoreElements(p.json.members, p.elements, E, e);
  }

  /** The same for an element of one of the packages. */
  method PerformAddElement(db: Database, p: Package, name: Text, ghost P: set<Package>, ghost E: set<Element>, ghost J: set<JSONValue>)
    returns (r: Outcome, ghost E': set<Element>, ghost J': set<JSONValue>)
    requires db.Consistent(P, E, J) && Get(db.packages, p.name) == Some(p)
    modifies p`elements, p.json`members
    ensures r == Changed <==> name != [] || Get(old(p.elements), name).Some?
    ensures fresh(E' - E) && fresh(J' - J)
    ensures r == Changed ==> db.Consistent(P, E', J') && (old(db.Printable(J)) ==> db.Printable(J'))
    ensures r != Changed ==> !db.Consistent(P, E', J')
    ensures View(db) == Step(old(View(db)), Call.AddElement(p.name, name))
  {
    hide InOrder, Put, Get, Package.Agrees, Element.Agrees, Unfold, Grew, Apart, OneHome, View, Step;
    E', J' := E, J;
    ghost var before, view := p.elements, View(db);
    ViewSays(db);
    AllKnown(db, P, E, J);
    ghost var root: JSONValue, g, printable := db.value, Snapshot(J), db.Printable(J);
    ghost var e;
    e, r := AddToElements(db, p, name, P, E, J);
    if e != null {
      E', J' := E + {e}, J + {e.json};
      if printable && r == Changed {
        StillPrintable(root, g, J', p.json, name, e.json);
      }
    }
    assert forall n: Text, m: Text :: n != p.name ==> Find(db, n, m) == old(Find(db, n, m));
    assert forall m: Text :: FindAmong(before, m) == old(FindAmong(p.elements, m));
    SeenElement(db, p, e, name, before, view);
  }

  lemma {:induction false} SeenElement(db: Database, p: Package, e: Element?, name: Text, before: seq<Entry<Element>>, c: Catalog)
    requires Get(db.packages, p.name) == Some(p)
    requires e == null ==> Get(before, name).Some? && p.elements == before
    requires e != null ==> Get(before, name) == None && DataOf(e) == NewData() && p.elements == Put(before, name, e)
    requires forall n: Text :: Get(db.packages, n).Some? <==> n in c.packages
    requires forall n: Text, m: Text :: n != p.name ==> Find(db, n, m) == At(c, n, m)
    requires forall m: Text :: FindAmong(before, m) == At(c, p.name, m)
    ensures View(db) == Step(c, Call.AddElement(p.name, name))
  {
    hide Put, Get, View;
    var c' := Step(c, Call.AddElement(p.name, name));
    assert p.name in c.packages;
    assert FindAmong(before, name) == At(c, p.name, name);
    forall n: Text, m: Text ensures Find(db, n, m) == At(c', n, m) {
      if n == p.name {
        assert FindAmong(before, m) == At(c, p.name, m);
        if e != null {
          PutGet(before, name, e, m);
        }
      }
    }
    ViewIs(db, c');
  }

  /** `e` is the new element, if there is one. */
  method AddToElements(db: Database, p: Package, name: Text, ghost P: set<Package>, ghost E: set<Element>, ghost J: set<JSONValue>)
    returns (ghost e: Element?, r: Outcome)
    requires db.Consistent(P, E, J) && p in P
    modifies p`elements, p.json`members
    ensures r == Changed <==> name != [] || Get(old(p.elements), name).Some?
    ensures e == null <==> Get(old(p.elements), name).Some?
    ensures e == null ==> db.Consistent(P, E, J) && Snapshot(J) == old(Snapshot(J)) && Open(J) == old(Open(J))
    ensures p.elements == if e == null then old(p.elements) else Put(old(p.elements), name, e)
    ensures e != null ==> fresh(e) && fresh(e.json) && DataOf(e) == NewData()
    ensures e != null && r == Changed ==> db.Consistent(P, E + {e}, J + {e.json}) && Grew(old(Snapshot(J)), old(Open(J)), J + {e.json}, p.json, name, e.json)
    ensures e != null && r != Changed ==> !db.Consistent(P, E + {e}, J + {e.json})
  {
    hide InOrder, Put, Get, Package.Agrees, Element.Agrees, Grew, NewData;
    PackageIsObject(p, E);
    ghost var before, elements, g, open := Get(p.elements, name), p.elements, Snapshot(J), Open(J);
    var f;
    ghost var E';
    f, r, E' := p.AddElement(name, E);
    e := null;
    if before == None {
      e := f;
      NewElement(e);
      if r == Changed {
        ItGrew(g, open, J, p.json, name, e.json);
      }
      OneMoreElement(P, E, p, elements, name, e);
      forall q | q in P && q != p ensures q.Agrees(E + {e}) {
        StillAgrees(q, E, e);
      }
    }
  }

  lemma {:induction false} NewElement(e: Element)
    requires e.Agrees() && e.json.members == []
    ensures DataOf(e) == NewData()
  {
  }

  lemma {:induction false} PackageIsObject(p: Package, E: set<Element>)
    requires p.Agrees(E)
    ensures p.json.kind == KObject
  {
  }

  lemma {:induction false} ElementIsObject(e: Element)
    requires e.Agrees()
    ensures e.json.kind == KObject
  {
  }

  method SetField(e: Element, f: Field, ghost J: set<JSONValue>) returns (ghost v: JSONValue)
    requires e.Agrees() && e.json in J && (f.LineNumber? ==> -0x8000_0000 <= f.n < 0x8000_0000)
    modifies e, e.json`members
    ensures DataOf(e) == WithField(old(DataOf(e)), f)
    ensures e.Agrees() && fresh(v) && Grew(old(Snapshot(J)), old(Open(J)), J + {v}, e.json, FieldName(f), v)
  {
    hide InOrder, Put, Get, Element.Agrees, Grew;
    ElementIsObject(e);
    ghost var g, open := Snapshot(J), Open(J);
    match f {
      case TypeField(s) => e.SetType(s);
      case FilenameField(s) => e.SetFilename(s);
      case LineNumber(n) => e.SetLine(n);
    }
    v := Get(e.json.members, FieldName(f)).value;
    ItGrew(g, open, J, e.json, FieldName(f), v);
  }

  /** Sets a field of one of the elements of one of the packages. */
  method PerformSet(db: Database, p: Package, e: Element, f: Field, ghost P: set<Package>, ghost E: set<Element>, ghost J: set<JSONValue>)
    returns (ghost J': set<JSONValue>)
    requires db.Consistent(P, E, J) && (f.LineNumber? ==> -0x8000_0000 <= f.n < 0x8000_0000)
    requires Get(db.packages, p.name) == Some(p) && Get(p.elements, e.name) == Some(e)
    modifies e, e.json`members
    ensures db.Consistent(P, E, J') && (old(db.Printable(J)) ==> db.Printable(J')) && fresh(J' - J)
    ensures View(db) == Step(old(View(db)), Call.Set(p.name, e.name, f))
  {
    hide InOrder, Put, Get, Package.Agrees, Element.Agrees, Unfold, Grew, View, Step;
    AllKnown(db, P, E, J);
    OnlyThere(db, p, e, P, E, J);
    ViewSays(db);
    ghost var root: JSONValue, g, printable, view, d := db.value, Snapshot(J), db.Printable(J), View(db), DataOf(e);
    ghost var v := SetField(e, f, J);
    J' := J + {v};
    if printable {
      StillPrintable(root, g, J', e.json, FieldName(f), v);
    }
    assert forall n: Text, m: Text :: n != p.name || m != e.name ==> Find(db, n, m) == old(Find(db, n, m));
    SeenField(db, p, e, f, view, d);
  }

  /** An element is in one place only. */
  lemma {:induction false} OnlyThere(db: Database, p: Package, e: Element, P: set<Package>, E: set<Element>, J: set<JSONValue>)
    requires db.Consistent(P, E, J) && Get(db.packages, p.name) == Some(p) && Get(p.elements, e.name) == Some(e)
    ensures forall n: Text, m: Text {:trigger Get(Get(db.packages, n).value.elements, m)} ::
      Get(db.packages, n).Some? && Get(Get(db.packages, n).value.elements, m) == Some(e) ==> n == p.name && m == e.name
  {
    hide Get, InOrder, Apart, Package.Agrees, Element.Agrees;
    AllKnown(db, P, E, J);
    forall n: Text, m: Text | Get(db.packages, n).Some? && Get(Get(db.packages, n).value.elements, m) == Some(e)
      ensures n == p.name && m == e.name
    {
      var q := Get(db.packages, n).value;
      assert Get(p.elements, m) == Get(q.elements, m);
    }
  }

  lemma {:induction false} SeenField(db: Database, p: Package, e: Element, f: Field, c: Catalog, d: Data)
    requires Get(db.packages, p.name) == Some(p) && Get(p.elements, e.name) == Some(e)
    requires At(c, p.name, e.name) == Some(d) && DataOf(e) == WithField(d, f)
    requires forall n: Text :: Get(db.packages, n).Some? <==> n in c.packages
    requires forall n: Text, m: Text :: n != p.name || m != e.name ==> Find(db, n, m) == At(c, n, m)
    ensures View(db) == Step(c, Call.Set(p.name, e.name, f))
  {
    hide Get, View;
    var c' := Step(c, Call.Set(p.name, e.name, f));
    forall n: Text, m: Text ensures Find(db, n, m) == At(c', n, m) {
      if n == p.name && m == e.name {
        assert Find(db, n, m) == Some(DataOf(e));
      }
    }
    ViewIs(db, c');
  }

  /** A call does to the database what it does to its catalog. */
  method Perform(db: Database, c: Call, ghost P: set<Package>, ghost E: set<Element>, ghost J: set<JSONValue>)
    returns (ghost P': set<Package>, ghost E': set<Element>, ghost J': set<JSONValue>)
    requires db.Consistent(P, E, J) && IsLegal(c)
    modifies db, db.json, db.value, P, E, J
    ensures db.Consistent(P', E', J') && db.json == old(db.json) && db.value == old(db.value)
    ensures old(db.Printable(J)) ==> db.Printable(J')
    ensures View(db) == Step(old(View(db)), c)
    ensures fresh(P' - P) && fresh(E' - E) && fresh(J' - J)
  {
    hide InOrder, Put, Get, Package.Agrees, Element.Agrees, Apart, OneHome, View;
    P', E', J' := P, E, J;
    AllKnown(db, P, E, J);
    match c
    case AddPackage(package) =>
      var r;
      r, P', J' := PerformAddPackage(db, package, P, E, J);
    case AddElement(package, element) =>
      var p := Get(db.packages, package);
      if p.Some? {
        PackageIsKnown(db, package, P, E, J);
        var r;
        r, E', J' := PerformAddElement(db, p.value, element, P, E, J);
      } else {
        NotThere(db, package, element, LineNumber(0));
      }
    case Set(package, element, field) =>
      var p := Get(db.packages, package);
      if p.Some? {
        PackageIsKnown(db, package, P, E, J);
        var e := Get(p.value.elements, element);
        if e.Some? {
          J' := PerformSet(db, p.value, e.value, field, P, E, J);
        } else {
          NotThere(db, package, element, field);
        }
      } else {
        NotThere(db, package, element, field);
      }
  }

  lemma {:induction false} PackageIsKnown(db: Database, name: Text, P: set<Package>, E: set<Element>, J: set<JSONValue>)
    requires db.Consistent(P, E, J) && Get(db.packages, name).Some?
    ensures Get(db.packages, name).value in P && Get(db.packages, name).value.Agrees(E) && Get(db.packages, name).value.json in J
    ensures forall e :: e in E ==> e.json in J
  {
    hide InOrder, Get;
    assert Listed(Get(db.packages, name), Get(db.value.members, name), name, P);
  }

  /** What is not there is not changed. */
  lemma {:induction false} NotThere(db: Database, package: Text, element: Text, f: Field)
    requires Find(db, package, element) == None
    ensures Step(View(db), Call.Set(package, element, f)) == View(db)
    ensures Get(db.packages, package) == None ==> Step(View(db), Call.AddElement(package, element)) == View(db)
  {
    hide FindIn, Get;
    ViewSays(db);
    assert At(View(db), package, element) == None;
  }

  lemma {:induction false} NoSteps(c: Catalog, calls: seq<Call>)
    ensures Steps(c, calls[..0]) == c && calls[..|calls|] == calls
  {
  }

  lemma {:induction false} OneMoreStep(c: Catalog, calls: seq<Call>, i: nat)
    requires i < |calls|
    ensures Steps(c, calls[..i + 1]) == Step(Steps(c, calls[..i]), calls[i])
  {
    assert calls[..i + 1][..i] == calls[..i];
  }

  /** From a consistent database, no run of calls with names that are not empty ever makes the maps
      and the tree disagree, or the tree cyclical. */
  method Run(db: Database, calls: seq<Call>, ghost P: set<Package>, ghost E: set<Element>, ghost J: set<JSONValue>)
    returns (ghost P': set<Package>, ghost E': set<Element>, ghost J': set<JSONValue>)
    requires db.Consistent(P, E, J) && forall i :: 0 <= i < |calls| ==> IsLegal(calls[i])
    modifies db, db.json, db.value, P, E, J
    ensures db.Consistent(P', E', J') && (old(db.Printable(J)) ==> db.Printable(J'))
    ensures db.json == old(db.json) && View(db) == Steps(old(View(db)), calls)
  {
    hide *;
    P', E', J' := P, E, J;
    NoSteps(View(db), calls);
    var i := 0;
    while i < |calls|
      invariant 0 <= i <= |calls| && db.Consistent(P', E', J') && db.json == old(db.json) && db.value == old(db.value)
      invariant View(db) == Steps(old(View(db)), calls[..i])
      invariant fresh(P' - P) && fresh(E' - E) && fresh(J' - J) && (old(db.Printable(J)) ==> db.Printable(J'))
    {
      OneMoreStep(old(View(db)), calls, i);
      P', E', J' := Perform(db, calls[i], P', E', J');
      i := i + 1;
    }
  }
}
