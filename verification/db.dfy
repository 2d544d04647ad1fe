/** The package database: maps in memory that index a JSON tree. */
module PackageDatabase {
  import opened Text
  import opened LexerSpec
  import opened OrderedMaps
  import opened Glob
  import opened JsonText
  import opened JsonGraph
  import opened JsonTrees
  import opened JsonCycles
  import opened JsonEdits
  import opened JsonReader
  import opened JsonFile

  type Members = seq<Entry<JSONValue>>

  const TYPE: Text := [116, 121, 112, 101]
  const FILENAME: Text := [102, 105, 108, 101, 110, 97, 109, 101]
  const LINE: Text := [108, 105, 110, 101]

  /** A line number is a 32 bit integer: a larger one loses its high bits. */
  function Wrap32(n: int): int {
    var u := n % 0x1_0000_0000;
    if u < 0x8000_0000 then u else u - 0x1_0000_0000
  }

  lemma {:induction false} Wrap32Keeps(n: int)
    ensures -0x8000_0000 <= Wrap32(n) < 0x8000_0000
    ensures Wrap32(n) == n <==> -0x8000_0000 <= n < 0x8000_0000
  {
  }

  /** A member of the right type, or what an element starts with. */
  function StringField(es: Members, name: Text): Text {
    match Get(es, name)
    case Some(v) => if v.kind == KString then v.str else []
    case None => []
  }

  function LineField(es: Members): int {
    match Get(es, LINE)
    case Some(v) => if v.kind == KInt then Wrap32(v.integer) else 1
    case None => 1
  }

  // ------------------------------------------------------------------
  //  Elements
  // ------------------------------------------------------------------

  lemma {:induction false} GetOneMore<V>(es: seq<Entry<V>>, i: nat, name: Text)
    requires i < |es|
    ensures Get(es[..i + 1], name) ==
      if Get(es[..i], name).Some? then Get(es[..i], name) else if es[i].name == name then Some(es[i].value) else None
    decreases i
  {
    if i == 0 {
      assert es[..1] == [es[0]] && [es[0]][1..] == [];
    } else {
      assert es[..i + 1][1..] == es[1..][..i] && es[..i][1..] == es[1..][..i - 1];
      GetOneMore(es[1..], i - 1, name);
    }
  }

  /** A key comes once. */
  lemma {:induction false} NotBefore<V>(es: seq<Entry<V>>, i: nat, j: nat)
    requires InOrder(es) && i < |es| && j <= i
    ensures Get(es[..j], es[i].name) == None
    decreases j
  {
    if j > 0 {
      NotBefore(es, i, j - 1);
      GetOneMore(es, j - 1, es[i].name);
      LessIrreflexive(es[i].name);
    }
  }

  /** The field has a value of its own now, and the other members are what they were. */
  ghost predicate NewField(before: Members, after: Members, name: Text) {
    Get(after, name).Some? && after == Put(before, name, Get(after, name).value)
  }

  class Element {
    const name: Text
    var typeName: Text
    var filename: Text
    var line: int
    const json: JSONValue

    /** The fields are what the members say. */
    ghost predicate Agrees()
      reads this, json`members
    {
      && json.kind == KObject && InOrder(json.members)
      && typeName == StringField(json.members, TYPE) && filename == StringField(json.members, FILENAME)
      && line == LineField(json.members)
    }

    /** Reads the members that have the right type; the others are only reported. */
    constructor (name: Text, json: JSONValue)
      requires json.kind == KObject && InOrder(json.members)
      ensures this.name == name && this.json == json && Agrees()
    {
      this.name, this.json := name, json;
      typeName, filename, line := [], [], 1;
      new;
      var es := json.members;
      var i := 0;
      while i < |es|
        invariant 0 <= i <= |es| && es == json.members
        invariant typeName == StringField(es[..i], TYPE) && filename == StringField(es[..i], FILENAME)
        invariant line == LineField(es[..i])
      {
        GetOneMore(es, i, TYPE);
        GetOneMore(es, i, FILENAME);
        GetOneMore(es, i, LINE);
        NotBefore(es, i, i);
        var v := es[i].value;
        if es[i].name == TYPE {
          if v.kind == KString {
            typeName := v.str;
          }
        } else if es[i].name == FILENAME {
          if v.kind == KString {
            filename := v.str;
          }
        } else if es[i].name == LINE {
          if v.kind == KInt {
            line := Wrap32(v.integer);
          }
        }
        i := i + 1;
      }
      assert es[..i] == es;
    }

    method SetType(typeName: Text)
      requires Agrees()
      modifies `typeName, json`members
      ensures Agrees() && this.typeName == typeName
      ensures filename == old(filename) && line == old(line)
      ensures forall k: Text :: k != TYPE ==> Get(json.members, k) == Get(old(json.members), k)
      ensures NewField(old(json.members), json.members, TYPE) && fresh(Get(json.members, TYPE).value)
      ensures var v := Get(json.members, TYPE).value; v.kind == KString && v.str == typeName && !v.saving
    {
      this.typeName := typeName;
      var v := new JSONValue(KString, 0, typeName, [], []);
      SetMember(TYPE, v);
    }

    method SetFilename(filename: Text)
      requires Agrees()
      modifies `filename, json`members
      ensures Agrees() && this.filename == filename
      ensures typeName == old(typeName) && line == old(line)
      ensures forall k: Text :: k != FILENAME ==> Get(json.members, k) == Get(old(json.members), k)
      ensures NewField(old(json.members), json.members, FILENAME) && fresh(Get(json.members, FILENAME).value)
      ensures var v := Get(json.members, FILENAME).value; v.kind == KString && v.str == filename && !v.saving
    {
      this.filename := filename;
      var v := new JSONValue(KString, 0, filename, [], []);
      SetMember(FILENAME, v);
    }

    method SetLine(line: int)
      requires Agrees() && -0x8000_0000 <= line < 0x8000_0000
      modifies `line, json`members
      ensures Agrees() && this.line == line
      ensures typeName == old(typeName) && filename == old(filename)
      ensures forall k: Text :: k != LINE ==> Get(json.members, k) == Get(old(json.members), k)
      ensures NewField(old(json.members), json.members, LINE) && fresh(Get(json.members, LINE).value)
      ensures var v := Get(json.members, LINE).value; v.kind == KInt && v.integer == line && !v.saving
    {
      this.line := line;
      var v := new JSONValue(KInt, line, [], [], []);
      SetMember(LINE, v);
    }

    method SetMember(name: Text, v: JSONValue)
      requires json.kind == KObject && InOrder(json.members) && name != []
      modifies json`members
      ensures InOrder(json.members) && json.members == Put(old(json.members), name, v)
      ensures forall k: Text :: Get(json.members, k) == if k == name then Some(v) else Get(old(json.members), k)
    {
      hide InOrder, Put, Get;
      PutInOrder(json.members, name, v);
      forall k: Text ensures Get(Put(json.members, name, v), k) == if k == name then Some(v) else Get(json.members, k) {
        PutGet(json.members, name, v, k);
      }
      var r := json.SetMember(name, v);
    }
  }

  /** The line of an element is its JSON member exactly when that fits 32 bits. */
  lemma {:induction false} LineIsKept(e: Element)
    requires e.Agrees() && Get(e.json.members, LINE).Some? && Get(e.json.members, LINE).value.kind == KInt
    ensures var n := Get(e.json.members, LINE).value.integer; e.line == n <==> -0x8000_0000 <= n < 0x8000_0000
  {
    hide Get, InOrder, Wrap32;
    Wrap32Keeps(Get(e.json.members, LINE).value.integer);
  }

  // ------------------------------------------------------------------
  //  Packages
  // ------------------------------------------------------------------

  /** An object under a name is indexed by an element of that name; nothing else is. */
  ghost predicate Indexed(e: Option<Element>, v: Option<JSONValue>, name: Text, E: set<Element>) {
    if v.Some? && v.value.kind == KObject then e.Some? && e.value in E && e.value.name == name && e.value.json == v.value
    else e.None?
  }

  ghost predicate AllAgree(E: set<Element>)
    reads E, set e | e in E :: e.json
  {
    forall e :: e in E ==> e.Agrees()
  }

  /** The objects among the members are in key order too. */
  ghost predicate ChildrenInOrder(es: Members)
    reads set i | 0 <= i < |es| :: es[i].value
  {
    forall i :: 0 <= i < |es| ==> InOrder(es[i].value.members)
  }

  class Package {
    const name: Text
    const json: JSONValue
    var elements: seq<Entry<Element>>

    ghost predicate Agrees(E: set<Element>)
      reads this, json`members
    {
      && json.kind == KObject && InOrder(json.members) && InOrder(elements)
      && forall n: Text :: Indexed(Get(elements, n), Get(json.members, n), n, E)
    }

    /** There are no other elements. */
    ghost predicate Exactly(E: set<Element>)
      reads this
    {
      forall e :: e in E ==> Get(elements, e.name) == Some(e)
    }

    constructor (name: Text, json: JSONValue)
      requires json.kind == KObject && InOrder(json.members) && ChildrenInOrder(json.members)
      ensures this.name == name && this.json == json
      ensures forall n: Text :: Get(elements, n).Some? ==> fresh(Get(elements, n).value)
      ensures exists E: set<Element> :: fresh(E) && Agrees(E) && AllAgree(E) && Exactly(E)
      ensures json.members == [] ==> elements == []
    {
      hide InOrder, Get, Put, Element.Agrees;
      this.name, this.json, elements := name, json, [];
      new;
      NothingYet<JSONValue>();
      NothingYet<Element>();
      var es := json.members;
      ghost var E: set<Element> := {};
      var i := 0;
      while i < |es|
        invariant 0 <= i <= |es| && es == json.members && InOrder(elements) && (i == 0 ==> elements == [])
        invariant fresh(E) && AllAgree(E) && Exactly(E)
        invariant forall n: Text :: Indexed(Get(elements, n), Get(es[..i], n), n, E)
      {
        var v := es[i].value;
        ghost var before, E0 := elements, E;
        if v.kind == KObject {
          var e := new Element(es[i].name, v);
          PutInOrder(elements, es[i].name, e);
          elements := Put(elements, es[i].name, e);
          E := E + {e};
          IndexOne(es, i, before, e, E0);
          StillExactly(es, i, before, e, E0);
        } else {
          IndexNone(es, i, elements, E);
        }
        i := i + 1;
      }
      assert es[..i] == es;
    }

    method FindElements(pattern: Text) returns (found: seq<Element>)
      ensures found == Fitting(elements, pattern)
    {
      found := Find(elements, pattern);
    }

    /** Adds an element when there is none of that name. An empty name is refused when the element
        is already in the map. */
    method AddElement(name: Text, ghost E: set<Element>) returns (e: Element, r: Outcome, ghost E': set<Element>)
      requires Agrees(E)
      modifies `elements, json`members
      ensures var known := Get(old(elements), name);
        if known.Some? then e == known.value && r == Changed && E' == E && elements == old(elements) && json.members == old(json.members)
        else
          && fresh(e) && fresh(e.json) && e.name == name && e.Agrees() && e.json.members == [] && !e.json.saving && E' == E + {e}
          && elements == Put(old(elements), name, e)
          && r == (if name == [] then EmptyName else Changed)
          && json.members == (if name == [] then old(json.members) else Put(old(json.members), name, e.json))
      ensures r == Changed <==> Agrees(E')
    {
      var known := Get(elements, name);
      if known.Some? {
        return known.value, Changed, E;
      }
      var made := new JSONValue(KObject, 0, [], [], []);
      e := new Element(name, made);
      ghost var before, members := elements, json.members;
      elements := Put(elements, name, e);
      E' := E + {e};
      r := json.SetMember(name, made);
      AddedElement(before, members, name, e, E);
    }
  }

  /** The new entry agrees with the new member, and with nothing else. */
  lemma {:induction false} AddedElement(elements: seq<Entry<Element>>, members: Members, name: Text, e: Element, E: set<Element>)
    requires InOrder(elements) && InOrder(members) && Get(elements, name) == None
    requires forall n: Text :: Indexed(Get(elements, n), Get(members, n), n, E)
    requires e.name == name && e.json.kind == KObject
    ensures InOrder(Put(elements, name, e)) && InOrder(Put(members, name, e.json))
    ensures forall n: Text :: Indexed(Get(Put(elements, name, e), n), Get(Put(members, name, e.json), n), n, E + {e})
    ensures !Indexed(Get(Put(elements, name, e), name), Get(members, name), name, E + {e})
  {
    hide InOrder, Put, Get;
    PutInOrder(elements, name, e);
    PutInOrder(members, name, e.json);
    assert Indexed(Get(elements, name), Get(members, name), name, E);
    PutGet(elements, name, e, name);
    forall n: Text ensures Indexed(Get(Put(elements, name, e), n), Get(Put(members, name, e.json), n), n, E + {e}) {
      assert Indexed(Get(elements, n), Get(members, n), n, E);
      PutGet(elements, name, e, n);
      PutGet(members, name, e.json, n);
    }
  }

  lemma {:induction false} NothingYet<V>()
    ensures InOrder<V>([]) && forall n: Text :: Get<V>([], n) == None
  {
  }

  lemma {:induction false} StillExactly(es: Members, i: nat, elements: seq<Entry<Element>>, e: Element, E: set<Element>)
    requires InOrder(es) && i < |es| && e.name == es[i].name
    requires forall n: Text :: Indexed(Get(elements, n), Get(es[..i], n), n, E)
    requires forall f :: f in E ==> Get(elements, f.name) == Some(f)
    ensures forall f: Element :: f in E + {e} ==> Get(Put(elements, e.name, e), f.name) == Some(f)
  {
    hide InOrder, Put, Get;
    NotBefore(es, i, i);
    assert Indexed(Get(elements, e.name), Get(es[..i], e.name), e.name, E);
    forall f: Element | f in E + {e} ensures Get(Put(elements, e.name, e), f.name) == Some(f) {
      PutGet(elements, e.name, e, f.name);
    }
  }

  lemma {:induction false} IndexOne(es: Members, i: nat, elements: seq<Entry<Element>>, e: Element, E: set<Element>)
    requires InOrder(es) && i < |es| && es[i].value.kind == KObject && e.name == es[i].name && e.json == es[i].value
    requires forall n: Text :: Indexed(Get(elements, n), Get(es[..i], n), n, E)
    ensures forall n: Text :: Indexed(Get(Put(elements, es[i].name, e), n), Get(es[..i + 1], n), n, E + {e})
  {
    hide InOrder, Put, Get;
    NotBefore(es, i, i);
    forall n: Text ensures Indexed(Get(Put(elements, es[i].name, e), n), Get(es[..i + 1], n), n, E + {e}) {
      assert Indexed(Get(elements, n), Get(es[..i], n), n, E);
      PutGet(elements, es[i].name, e, n);
      GetOneMore(es, i, n);
    }
  }

  lemma {:induction false} IndexNone(es: Members, i: nat, elements: seq<Entry<Element>>, E: set<Element>)
    requires InOrder(es) && i < |es| && es[i].value.kind != KObject
    requires forall n: Text :: Indexed(Get(elements, n), Get(es[..i], n), n, E)
    ensures forall n: Text :: Indexed(Get(elements, n), Get(es[..i + 1], n), n, E)
  {
    hide InOrder, Get;
    forall n: Text ensures Indexed(Get(elements, n), Get(es[..i + 1], n), n, E) {
      assert Indexed(Get(elements, n), Get(es[..i], n), n, E);
      GetOneMore(es, i, n);
    }
  }

  // ------------------------------------------------------------------
  //  The database
  // ------------------------------------------------------------------

  /** A member of the root is indexed by a package of that name. */
  ghost predicate Listed(p: Option<Package>, v: Option<JSONValue>, name: Text, P: set<Package>) {
    if v.Some? then p.Some? && p.value in P && p.value.name == name && p.value.json == v.value else p.None?
  }

  /** No two of these objects are the same. */
  ghost predicate Apart(root: JSONValue, P: set<Package>, E: set<Element>) {
    && (forall p :: p in P ==> p.json != root) && (forall e :: e in E ==> e.json != root)
    && (forall p, q :: p in P && q in P && p.json == q.json ==> p == q)
    && (forall e, f :: e in E && f in E && e.json == f.json ==> e == f)
    && (forall p, e :: p in P && e in E ==> p.json != e.json)
  }

  /** An element belongs to one package. */
  ghost predicate OneHome(P: set<Package>)
    reads P
  {
    forall p, q, n: Text {:trigger Get(p.elements, n), Get(q.elements, n)} ::
      p in P && q in P && Get(p.elements, n).Some? && Get(p.elements, n) == Get(q.elements, n) ==> p == q
  }

  /** What `load()` answers: true or false, or an exception. */
  datatype Loading = Loaded(ok: bool) | Threw

  ghost predicate ObjectOfObjects(root: JSONValue)
    reads root`members
  {
    root.kind == KObject && forall i :: 0 <= i < |root.members| ==> root.members[i].value.kind == KObject
  }

  lemma {:induction false} KidOfObject(J: set<JSONValue>, o: JSONValue, name: Text) returns (i: nat)
    requires o in J && o.kind == KObject && Get(o.members, name).Some?
    ensures KidAt(Snapshot(J), o, i, Get(o.members, name).value)
    ensures i < |o.members| && o.members[i] == Entry(name, Get(o.members, name).value)
  {
    i := GetIs(o.members, name);
  }

  /** The package has the element under its name. */
  ghost predicate Owns(p: Package, e: Element)
    reads p
  {
    Get(p.elements, e.name) == Some(e)
  }

  /** The sets hold what the maps hold, and nothing else. */
  ghost predicate Owned(packages: seq<Entry<Package>>, P: set<Package>, E: set<Element>)
    reads P
  {
    && (forall p :: p in P ==> Get(packages, p.name) == Some(p))
    && forall e :: e in E ==> exists p :: p in P && Owns(p, e)
  }

  lemma {:induction false} OwnedMember(J: set<JSONValue>, p: Package, e: Element, E: set<Element>) returns (i: nat)
    requires p.json in J && p.Agrees(E) && Owns(p, e)
    ensures KidAt(Snapshot(J), p.json, i, e.json)
    ensures i < |p.json.members| && p.json.members[i].name == e.name
  {
    assert Indexed(Get(p.elements, e.name), Get(p.json.members, e.name), e.name, E);
    i := KidOfObject(J, p.json, e.name);
  }

  lemma {:induction false} ListedMember(J: set<JSONValue>, root: JSONValue, packages: seq<Entry<Package>>, p: Package, P: set<Package>) returns (i: nat)
    requires root in J && root.kind == KObject && Get(packages, p.name) == Some(p)
    requires forall n: Text :: Listed(Get(packages, n), Get(root.members, n), n, P)
    ensures KidAt(Snapshot(J), root, i, p.json)
    ensures i < |root.members| && root.members[i].name == p.name
  {
    assert Listed(Get(packages, p.name), Get(root.members, p.name), p.name, P);
    i := KidOfObject(J, root, p.name);
  }

  /** In a tree that shares nothing, the indexed objects are all different. */
  lemma {:induction false} ApartFromTrees(J: set<JSONValue>, root: JSONValue, packages: seq<Entry<Package>>, P: set<Package>, E: set<Element>)
    requires root in J && root.kind == KObject && Trees(Snapshot(J), [root])
    requires forall n: Text :: Listed(Get(packages, n), Get(root.members, n), n, P)
    requires Owned(packages, P, E) && forall p :: p in P ==> p.json in J && p.Agrees(E)
    ensures Apart(root, P, E)
  {
    hide Package.Agrees, Listed, Get, Kids;
    var g := Snapshot(J);
    assert [root][0] == root;
    forall p | p in P ensures p.json != root {
      var i := ListedMember(J, root, packages, p, P);
    }
    forall p, q | p in P && q in P && p.json == q.json ensures p == q {
      var i := ListedMember(J, root, packages, p, P);
      var j := ListedMember(J, root, packages, q, P);
    }
    forall e | e in E ensures e.json != root {
      var p :| p in P && Owns(p, e);
      var i := OwnedMember(J, p, e, E);
    }
    forall p, e | p in P && e in E ensures p.json != e.json {
      var q :| q in P && Owns(q, e);
      var i := OwnedMember(J, q, e, E);
      var j := ListedMember(J, root, packages, p, P);
      var k := ListedMember(J, root, packages, q, P);
    }
    forall e, f | e in E && f in E && e.json == f.json ensures e == f {
      SameElement(J, root, packages, P, E, e, f);
    }
  }

  lemma {:induction false} SameElement(J: set<JSONValue>, root: JSONValue, packages: seq<Entry<Package>>, P: set<Package>, E: set<Element>, e: Element, f: Element)
    requires root in J && root.kind == KObject && NotShared(Snapshot(J)) && e in E && f in E && e.json == f.json
    requires forall n: Text :: Listed(Get(packages, n), Get(root.members, n), n, P)
    requires Owned(packages, P, E) && forall p :: p in P ==> p.json in J && p.Agrees(E)
    ensures e == f
  {
    hide Package.Agrees, Listed, Get, Kids;
    var p :| p in P && Owns(p, e);
    var q :| q in P && Owns(q, f);
    var i := OwnedMember(J, p, e, E);
    var j := OwnedMember(J, q, f, E);
    assert p.json == q.json && i == j;
    var k := ListedMember(J, root, packages, p, P);
    var l := ListedMember(J, root, packages, q, P);
  }

  lemma {:induction false} OneHomeFromTrees(J: set<JSONValue>, root: JSONValue, packages: seq<Entry<Package>>, P: set<Package>, E: set<Element>)
    requires root in J && root.kind == KObject && Trees(Snapshot(J), [root])
    requires forall n: Text :: Listed(Get(packages, n), Get(root.members, n), n, P)
    requires Owned(packages, P, E) && forall p :: p in P ==> p.json in J && p.Agrees(E)
    ensures OneHome(P)
  {
    hide Package.Agrees, Listed, Get, Kids;
    forall p, q, n: Text | p in P && q in P && Get(p.elements, n).Some? && Get(p.elements, n) == Get(q.elements, n)
      ensures p == q
    {
      var e := Get(p.elements, n).value;
      HasItsName(p, n, E);
      var i := OwnedMember(J, p, e, E);
      var j := OwnedMember(J, q, e, E);
      assert p.json == q.json;
      var k := ListedMember(J, root, packages, p, P);
      var l := ListedMember(J, root, packages, q, P);
    }
  }

  lemma {:induction false} HasItsName(p: Package, n: Text, E: set<Element>)
    requires p.Agrees(E) && Get(p.elements, n).Some?
    ensures var e := Get(p.elements, n).value; e in E && e.name == n
  {
    hide Get, InOrder;
    assert Indexed(Get(p.elements, n), Get(p.json.members, n), n, E);
  }

  lemma {:induction false} MadeIsATree(J: set<JSONValue>, root: JSONValue, v: Value)
    requires MadeOne(J, root, v)
    ensures root in J && Clean(J) && Closed(Snapshot(J)) && Trees(Snapshot(J), [root]) && InOrder(root.members)
    ensures CanBePrinted(root, J)
  {
    hide InOrder, Unfold, Trees;
  }

  lemma {:induction false} EmptyIsPrintable(root: JSONValue)
    requires root.kind == KObject && root.members == [] && !root.saving
    ensures CanBePrinted(root, {root})
  {
  }

  lemma {:induction false} MemberJson(J: set<JSONValue>, P: set<Package>, E: set<Element>, packages: seq<Entry<Package>>)
    requires Closed(Snapshot(J)) && Owned(packages, P, E) && forall p :: p in P ==> p.json in J && p.Agrees(E)
    ensures forall e :: e in E ==> e.json in J
  {
    hide Package.Agrees, Get;
    forall e | e in E ensures e.json in J {
      var p :| p in P && Owns(p, e);
      var i := OwnedMember(J, p, e, E);
      assert AllIn(Kids(Snapshot(J)[p.json]), Snapshot(J).Keys);
    }
  }

  lemma {:induction false} NothingListed()
    ensures forall n: Text :: Listed(Get([], n), Get([], n), n, {})
  {
  }

  lemma {:induction false} NothingApart(root: JSONValue)
    ensures Apart(root, {}, {}) && OneHome({})
  {
  }

  lemma {:induction false} AgreesWithMore(p: Package, E: set<Element>, F: set<Element>)
    requires p.Agrees(E) && E <= F
    ensures p.Agrees(F)
  {
    hide Get, InOrder;
    forall n: Text ensures Indexed(Get(p.elements, n), Get(p.json.members, n), n, F) {
      assert Indexed(Get(p.elements, n), Get(p.json.members, n), n, E);
    }
  }

  lemma {:induction false} ListOne(es: Members, i: nat, packages: seq<Entry<Package>>, p: Package, P: set<Package>)
    requires InOrder(es) && i < |es| && p.name == es[i].name && p.json == es[i].value
    requires forall n: Text :: Listed(Get(packages, n), Get(es[..i], n), n, P)
    ensures forall n: Text :: Listed(Get(Put(packages, es[i].name, p), n), Get(es[..i + 1], n), n, P + {p})
    ensures Get(packages, es[i].name) == None
  {
    hide InOrder, Put, Get;
    NotBefore(es, i, i);
    assert Listed(Get(packages, p.name), Get(es[..i], p.name), p.name, P);
    forall n: Text ensures Listed(Get(Put(packages, es[i].name, p), n), Get(es[..i + 1], n), n, P + {p}) {
      assert Listed(Get(packages, n), Get(es[..i], n), n, P);
      PutGet(packages, es[i].name, p, n);
      GetOneMore(es, i, n);
    }
  }

  lemma {:induction false} OwnedToo(es: Members, i: nat, packages: seq<Entry<Package>>, p: Package, P: set<Package>, E: set<Element>, more: set<Element>)
    requires i < |es| && p.name == es[i].name && Get(packages, p.name) == None && Owned(packages, P, E) && p.Exactly(more)
    ensures Owned(Put(packages, es[i].name, p), P + {p}, E + more)
  {
    hide Put, Get;
    var r := Put(packages, p.name, p);
    forall q: Package | q in P + {p} ensures Get(r, q.name) == Some(q) {
      PutGet(packages, p.name, p, q.name);
    }
    forall e: Element | e in E + more ensures exists q :: q in P + {p} && Owns(q, e) {
      if e in more {
        assert Owns(p, e);
      }
    }
  }

  /** The first `i` members are loaded. */
  ghost predicate FirstLoaded(es: Members, i: nat, packages: seq<Entry<Package>>, P: set<Package>, E: set<Element>, J: set<JSONValue>)
    requires i <= |es|
    reads P, E, J`members, set p | p in P :: p.json, set e | e in E :: e.json
  {
    && InOrder(packages) && (forall n: Text :: Listed(Get(packages, n), Get(es[..i], n), n, P))
    && Owned(packages, P, E) && AllAgree(E) && forall p :: p in P ==> p.json in J && p.Agrees(E)
  }

  lemma {:induction false} NoneLoaded(es: Members, J: set<JSONValue>)
    ensures FirstLoaded(es, 0, [], {}, {}, J)
  {
    NothingYet<JSONValue>();
    NothingYet<Package>();
  }

  lemma {:induction false} AllLoaded(es: Members, packages: seq<Entry<Package>>, P: set<Package>, E: set<Element>, J: set<JSONValue>)
    requires FirstLoaded(es, |es|, packages, P, E, J)
    ensures InOrder(packages) && forall n: Text :: Listed(Get(packages, n), Get(es, n), n, P)
    ensures Owned(packages, P, E) && AllAgree(E) && forall p :: p in P ==> p.json in J && p.Agrees(E)
  {
    hide InOrder, Get, Package.Agrees, Element.Agrees;
    assert es[..|es|] == es;
  }

  lemma {:induction false} OneMoreLoaded(es: Members, i: nat, packages: seq<Entry<Package>>, p: Package, P: set<Package>, E: set<Element>,
                                         more: set<Element>, J: set<JSONValue>)
    requires InOrder(es) && i < |es| && p.name == es[i].name && p.json == es[i].value && p.json in J
    requires FirstLoaded(es, i, packages, P, E, J) && p.Agrees(more) && AllAgree(more) && p.Exactly(more)
    ensures FirstLoaded(es, i + 1, Put(packages, es[i].name, p), P + {p}, E + more, J)
  {
    hide InOrder, Get, Put, Package.Agrees, Element.Agrees, Owned, Listed;
    PutInOrder(packages, es[i].name, p);
    ListOne(es, i, packages, p, P);
    OwnedToo(es, i, packages, p, P, E, more);
    forall q | q in P ensures q.Agrees(E + more) {
      AgreesWithMore(q, E, E + more);
    }
    AgreesWithMore(p, more, E + more);
  }

  lemma {:induction false} MemberIsClean(J: set<JSONValue>, o: JSONValue, i: nat)
    requires o in J && o.kind == KObject && Clean(J) && Closed(Snapshot(J)) && i < |o.members|
    ensures o.members[i].value in J && InOrder(o.members)
    ensures o.members[i].value.kind == KObject ==> InOrder(o.members[i].value.members) && ChildrenInOrder(o.members[i].value.members)
  {
    hide InOrder;
    var g := Snapshot(J);
    assert AllIn(Kids(g[o]), g.Keys) && Kids(g[o])[i] == o.members[i].value;
    var v := o.members[i].value;
    if v.kind == KObject {
      assert AllIn(Kids(g[v]), g.Keys);
      forall k | 0 <= k < |v.members| ensures InOrder(v.members[k].value.members) {
        assert Kids(g[v])[k] == v.members[k].value;
      }
    }
  }

  /** No cycle keeps the tree from being printed, and nothing is being printed. */
  ghost predicate CanBePrinted(root: JSONValue, J: set<JSONValue>)
    reads J`items, J`members, J`saving
  {
    root in J && Closed(Snapshot(J)) && Open(J) == {} && Unfold(Snapshot(J), root, {}).Done?
  }

  class Database {
    var filename: Text
    var json: JSON?
    var value: JSONValue?
    var packages: seq<Entry<Package>>

    /** The maps are exactly what the JSON tree says, down to the objects themselves. */
    ghost predicate Consistent(P: set<Package>, E: set<Element>, J: set<JSONValue>)
      reads this, json, P, E, J`members
    {
      && json != null && value != null && json.value == value && value.kind == KObject && value in J
      && InOrder(value.members) && InOrder(packages)
      && (forall n: Text :: Listed(Get(packages, n), Get(value.members, n), n, P))
      && (forall p :: p in P ==> p.json in J && p.Agrees(E))
      && (forall e :: e in E ==> e.json in J && e.Agrees())
      && Apart(value, P, E) && OneHome(P)
    }

    ghost predicate Printable(J: set<JSONValue>)
      reads this, J`items, J`members, J`saving
    {
      value != null && CanBePrinted(value, J)
    }

    constructor ()
      ensures json == null && value == null && packages == []
    {
      filename, json, value, packages := [], null, null, [];
    }

    /** Reads the database file, unless that was done already. No file is an empty database, and so
        is a null; anything else that is not an object of objects is refused. */
    method Load(filename: Text, content: Option<Text>, letters: Letters)
      returns (r: Loading, ghost P: set<Package>, ghost E: set<Element>, ghost J: set<JSONValue>)
      requires json == null ==> packages == []
      modifies this
      ensures old(json) != null ==> r == Loaded(value != null) && json == old(json) && value == old(value) && packages == old(packages)
      ensures old(json) == null ==> json != null && fresh(json) && fresh(P) && fresh(E) && fresh(J) && this.filename == filename
      ensures old(json) == null && content == None ==> r == Loaded(true) && Consistent(P, E, J) && Printable(J) && packages == []
      ensures old(json) == null && content.Some? ==>
        var p := JsonText.Parse(letters, Normal(content.value));
        && (r == Threw <==> !p.Read?)
        && (p.Read? ==> value != null && MadeOne(J, value, p.value) && (r == Loaded(true) <==> value.kind == KNull || ObjectOfObjects(value)))
        && (r == Loaded(true) && value.kind != KNull ==> Consistent(P, E, J) && Printable(J))
        && (r == Threw ==> value == old(value) && packages == [])
    {
      hide InOrder, Get, Put, Package.Agrees, Element.Agrees, MadeOne, ReadValue, Lex, Apart, Trees, Clean, Owned, Closed, Normal, Listed, CanBePrinted, OneHome;
      P, E, J := {}, {}, {};
      if json != null {
        r := Loaded(value != null);
        return;
      }
      this.filename := filename;
      json := new JSON();
      if content == None {
        value := new JSONValue(KObject, 0, [], [], []);
        json.value := value;
        J := {value};
        EmptyIsPrintable(value);
        NothingYet<JSONValue>();
        NothingYet<Package>();
        NothingApart(value);
        NothingListed();
        return Loaded(true), P, E, J;
      }
      var reading;
      reading, J := json.Parse(content.value, letters);
      if !reading.Made? {
        return Threw, P, E, J;
      }
      value := json.value;
      if value.kind == KNull {
        return Loaded(true), P, E, J;
      }
      if value.kind != KObject {
        return Loaded(false), P, E, J;
      }
      MadeIsATree(J, value, JsonText.Parse(letters, Normal(content.value)).value);
      var ok;
      ok, P, E := LoadPackages(J);
      if ok {
        ApartFromTrees(J, value, packages, P, E);
        OneHomeFromTrees(J, value, packages, P, E);
        MemberJson(J, P, E, packages);
      }
      r := Loaded(ok);
    }

    /** Writes the tree if the database was loaded. */
    method Save(header: Text, ghost T: set<JSONValue>) returns (w: Option<Written>)
      requires json != null && json.value != null ==> json.value in T && Closed(Snapshot(T))
      modifies T`saving
      ensures Open(T) == old(Open(T))
      ensures w == None <==> json == null
      ensures json != null && json.value == null ==> w == Some(NothingToWrite)
      ensures json != null && json.value != null ==>
        var front := [BOM] + (if header == [] then [] else header + [NEWLINE]);
        w == Some(match Unfold(Snapshot(T), json.value, old(Open(T)))
                  case Done(v) => Written(front + Print(AsIs, v))
                  case Cyclical => Cyclic(front))
    {
      hide Unfold, Print, Open, Closed;
      w := None;
      if json != null {
        var written := json.Output(header, true, T);
        w := Some(written);
      }
    }

    /** The loop on the members of the root: each one is a package. */
    method LoadPackages(ghost J: set<JSONValue>) returns (ok: bool, ghost P: set<Package>, ghost E: set<Element>)
      requires value != null && value.kind == KObject && value in J && Clean(J) && Closed(Snapshot(J)) && packages == []
      modifies `packages
      ensures fresh(P) && fresh(E) && ok == ObjectOfObjects(value)
      ensures ok ==> InOrder(packages) && forall n: Text :: Listed(Get(packages, n), Get(value.members, n), n, P)
      ensures ok ==> Owned(packages, P, E) && AllAgree(E) && forall p :: p in P ==> p.json in J && p.Agrees(E)
    {
      hide InOrder, Get, Put, Package.Agrees, Element.Agrees, Closed, FirstLoaded, Owned, Clean;
      P, E, ok := {}, {}, true;
      var es := value.members;
      NoneLoaded(es, J);
      var i := 0;
      while i < |es|
        invariant 0 <= i <= |es| && es == value.members && fresh(P) && fresh(E)
        invariant forall k :: 0 <= k < i ==> es[k].value.kind == KObject
        invariant FirstLoaded(es, i, packages, P, E, J)
      {
        var v := es[i].value;
        if v.kind != KObject {
          return false, P, E;
        }
        MemberIsClean(J, value, i);
        var p := new Package(es[i].name, v);
        ghost var more: set<Element> :| fresh(more) && p.Agrees(more) && AllAgree(more) && p.Exactly(more);
        assert FirstLoaded(es, i, packages, P, E, J);
        OneMoreLoaded(es, i, packages, p, P, E, more, J);
        packages := Put(packages, es[i].name, p);
        P, E := P + {p}, E + more;
        i := i + 1;
      }
      assert es[..i] == es;
      AllLoaded(es, packages, P, E, J);
    }

    method FindPackages(pattern: Text) returns (found: seq<Package>)
      ensures found == Fitting(packages, pattern)
    {
      found := Find(packages, pattern);
    }

    /** Adds a package when there is none of that name. Before `load()` it is an error; a root that
        is not an object, or an empty name, is only found out when the package is in the map. */
    method AddPackage(name: Text) returns (p: Package?, r: Outcome)
      modifies this, json, if value == null then {} else {value}
      ensures var known := Get(old(packages), name);
        if known.Some? then p == known.value && r == Changed && packages == old(packages) && value == old(value)
                            && (value != null ==> value.members == old(value.members))
        else if old(json) == null then p == null && r == NoValue && packages == old(packages) && value == old(value)
        else
          && p != null && fresh(p) && fresh(p.json) && p.name == name && p.json.kind == KObject && p.json.members == [] && !p.json.saving
          && p.elements == [] && packages == Put(old(packages), name, p)
          && value != null && (if old(value) == null then fresh(value) && json != null && json.value == value && value.kind == KObject else value == old(value))
          && r == (if value.kind != KObject then WrongType else if name == [] then EmptyName else Changed)
          && var members := if old(value) == null then [] else old(value.members);
             value.members == if r == Changed then Put(members, name, p.json) else members
      ensures json == old(json) && (json != null && old(value) != null ==> json.value == old(json.value))
      ensures old(value) != null ==> value.saving == old(value.saving) && value.items == old(value.items)
    {
      var known := Get(packages, name);
      if known.Some? {
        return known.value, Changed;
      }
      if json == null {
        return null, NoValue;
      }
      if value == null {
        value := new JSONValue(KObject, 0, [], [], []);
        json.value := value;
      }
      var made := new JSONValue(KObject, 0, [], [], []);
      p := new Package(name, made);
      packages := Put(packages, name, p);
      r := value.SetMember(name, made);
    }
  }
}
