/** A database that is saved and loaded again. */
module SavedDatabase {
  import opened Text
  import opened LexerSpec
  import opened OrderedMaps
  import opened JsonText
  import opened JsonValues
  import opened JsonGraph
  import opened JsonReader
  import opened JsonFile
  import opened PackageDatabase
  import opened DatabaseRuns

  // ------------------------------------------------------------------
  //  What a database says
  // ------------------------------------------------------------------

  function Member(ms: seq<Member>, name: Text): Option<Value> {
    if ms == [] then None else if ms[0].name == name then Some(ms[0].value) else Member(ms[1..], name)
  }

  function StringOf(v: Option<Value>): Text {
    if v.Some? && v.value.VStr? then v.value.text else []
  }

  function LineOf(v: Option<Value>): int {
    if v.Some? && v.value.VInt? then Wrap32(v.value.n) else 1
  }

  /** What a JSON value says about an element of a package. */
  function SaidBy(v: Value, package: Text, element: Text): Option<Data> {
    if !v.VObj? then None else
    match Member(v.members, package)
    case Some(VObj(es)) =>
      (match Member(es, element)
       case Some(VObj(fs)) => Some(Data(StringOf(Member(fs, TYPE)), StringOf(Member(fs, FILENAME)), LineOf(Member(fs, LINE))))
       case _ => None)
    case _ => None
  }

  // ------------------------------------------------------------------
  //  Members of objects and members of values
  // ------------------------------------------------------------------

  lemma {:induction false} ZipMember(g: Graph, es: seq<Entry<JSONValue>>, vs: seq<Value>, open: set<JSONValue>, name: Text)
    requires Closed(g) && AllIn(EntryValues(es), g.Keys) && UnfoldAll(g, EntryValues(es), open) == AllDone(vs)
    ensures match Get(es, name)
      case None => Member(Zip(es, vs), name) == None
      case Some(o) => o in g.Keys && Member(Zip(es, vs), name).Some? && Unfold(g, o, open) == Done(Member(Zip(es, vs), name).value)
  {
    if es != [] {
      assert EntryValues(es)[1..] == EntryValues(es[1..]);
      var rest := UnfoldAll(g, EntryValues(es[1..]), open);
      assert rest.AllDone? && vs == [vs[0]] + rest.values && vs[1..] == rest.values;
      ZipMember(g, es[1..], vs[1..], open, name);
    }
  }

  /** The member of an object and the member of its value. */
  lemma {:induction false} ObjectMember(T: set<JSONValue>, o: JSONValue, open: set<JSONValue>, v: Value, name: Text)
    requires Closed(Snapshot(T)) && o in T && o.kind == KObject && Unfold(Snapshot(T), o, open) == Done(v)
    ensures v.VObj?
    ensures match Get(o.members, name)
      case None => Member(v.members, name) == None
      case Some(x) => x in T && Member(v.members, name).Some? && Unfold(Snapshot(T), x, open + {o}) == Done(Member(v.members, name).value)
  {
    var g := Snapshot(T);
    UnfoldContainer(g, o, open);
    if o.members != [] {
      ZipMember(g, o.members, UnfoldAll(g, EntryValues(o.members), open + {o}).values, open + {o}, name);
    }
  }

  lemma {:induction false} KindOfValue(T: set<JSONValue>, o: JSONValue, open: set<JSONValue>, v: Value)
    requires Closed(Snapshot(T)) && o in T && Unfold(Snapshot(T), o, open) == Done(v)
    ensures o.kind == KObject <==> v.VObj?
    ensures if o.kind == KString then v == VStr(o.str) else !v.VStr?
    ensures if o.kind == KInt then v == VInt(o.integer) else !v.VInt?
  {
    UnfoldContainer(Snapshot(T), o, open);
  }

  lemma {:induction false} FieldsAgree(T: set<JSONValue>, e: Element, open: set<JSONValue>, v: Value)
    requires Closed(Snapshot(T)) && e.json in T && e.Agrees() && Unfold(Snapshot(T), e.json, open) == Done(v)
    ensures v.VObj?
    ensures Data(e.typeName, e.filename, e.line)
      == Data(StringOf(Member(v.members, TYPE)), StringOf(Member(v.members, FILENAME)), LineOf(Member(v.members, LINE)))
  {
    hide Unfold, InOrder, Closed;
    FieldAgrees(T, e.json, open, v, TYPE);
    FieldAgrees(T, e.json, open, v, FILENAME);
    FieldAgrees(T, e.json, open, v, LINE);
  }

  lemma {:induction false} FieldAgrees(T: set<JSONValue>, o: JSONValue, open: set<JSONValue>, v: Value, name: Text)
    requires Closed(Snapshot(T)) && o in T && o.kind == KObject && Unfold(Snapshot(T), o, open) == Done(v)
    ensures v.VObj? && StringField(o.members, name) == StringOf(Member(v.members, name))
    ensures name == LINE ==> LineField(o.members) == LineOf(Member(v.members, LINE))
  {
    hide Unfold, Closed;
    ObjectMember(T, o, open, v, name);
    if Get(o.members, name).Some? {
      KindOfValue(T, Get(o.members, name).value, open + {o}, Member(v.members, name).value);
    }
  }

  /** A consistent database says what the value of its tree says. */
  lemma {:induction false} SaysTheSame(db: Database, P: set<Package>, E: set<Element>, J: set<JSONValue>, T: set<JSONValue>, v: Value, package: Text, element: Text)
    requires db.Consistent(P, E, J) && Closed(Snapshot(T)) && db.value in T && Unfold(Snapshot(T), db.value, {}) == Done(v)
    ensures Find(db, package, element) == SaidBy(v, package, element)
    ensures v.VObj? && (Get(db.packages, package).Some? <==> Member(v.members, package).Some?)
    ensures Member(v.members, package).Some? ==> Member(v.members, package).value.VObj?
  {
    hide Unfold, Closed, InOrder, Get, Member, Element.Agrees, Apart, StringOf, LineOf;
    ObjectMember(T, db.value, {}, v, package);
    assert Listed(Get(db.packages, package), Get(db.value.members, package), package, P);
    if Get(db.packages, package).Some? {
      var p, w, open := Get(db.packages, package).value, Member(v.members, package).value, {} + {db.value};
      assert p.Agrees(E);
      ObjectMember(T, p.json, open, w, element);
      assert Indexed(Get(p.elements, element), Get(p.json.members, element), element, E);
      if Get(p.json.members, element).Some? {
        var x, u := Get(p.json.members, element).value, Member(w.members, element).value;
        KindOfValue(T, x, open + {p.json}, u);
        if x.kind == KObject {
          FieldsAgree(T, Get(p.elements, element).value, open + {p.json}, u);
        }
      }
    }
  }

  // ------------------------------------------------------------------
  //  Saving and loading
  // ------------------------------------------------------------------

  lemma {:induction false} EndsWithNewline(lines: seq<Text>)
    requires lines != []
    ensures var c := Comments(lines); |c| >= 2 && c[|c| - 1] == NEWLINE
  {
    if |lines| > 1 {
      EndsWithNewline(lines[1..]);
    }
  }

  lemma {:induction false} RootHoldsObjects(J: set<JSONValue>, root: JSONValue, v: Value)
    requires Closed(Snapshot(J)) && root in J && InOrder(root.members) && Unfold(Snapshot(J), root, {}) == Done(v) && v.VObj?
    requires forall n: Text :: Member(v.members, n).Some? ==> Member(v.members, n).value.VObj?
    ensures ObjectOfObjects(root)
  {
    hide Unfold, Closed, InOrder, Member, Get;
    KindOfValue(J, root, {}, v);
    forall i | 0 <= i < |root.members| ensures root.members[i].value.kind == KObject {
      var n := root.members[i].name;
      GetAt(root.members, i);
      ObjectMember(J, root, {}, v, n);
      KindOfValue(J, root.members[i].value, {} + {root}, Member(v.members, n).value);
    }
  }

  /** What `Load()` makes of the text. */
  lemma {:induction false} Remade(J: set<JSONValue>, root: JSONValue, v: Value)
    requires MadeOne(J, root, v)
    ensures root in J && Closed(Snapshot(J)) && InOrder(root.members) && Unfold(Snapshot(J), root, {}) == Done(v)
  {
    hide InOrder, Unfold;
  }

  /** The value that is written. */
  ghost function Written(root: JSONValue, J: set<JSONValue>): Value
    requires CanBePrinted(root, J)
    reads J`items, J`members, J`saving
  {
    Unfold(Snapshot(J), root, {}).value
  }

  /** A database that holds supported characters is the same after it was saved and loaded: the same
      packages, elements, types, file names and lines. */
  method SaveAndReload(db: Database, filename: Text, lines: seq<Text>, letters: Letters,
                       ghost P: set<Package>, ghost E: set<Element>, ghost J: set<JSONValue>)
    returns (again: Database, ghost P': set<Package>, ghost E': set<Element>, ghost J': set<JSONValue>)
    requires db.Consistent(P, E, J) && db.Printable(J) && Supported(AsIs, Written(db.value, J))
    requires lines != [] && forall i :: 0 <= i < |lines| ==> IsLine(lines[i])
    modifies J`saving
    ensures db.Consistent(P, E, J) && db.Printable(J) && again.Consistent(P', E', J') && again.Printable(J')
    ensures View(db) == old(View(db)) && View(again) == View(db)
  {
    hide Unfold, Closed, View, Print, Comments, Lex, ReadValue, Normal, Database.Consistent, Supported, IsLine;
    ghost var v := Written(db.value, J);
    var text := SaveAgain(db, lines, P, E, J);
    SavedFileIsReadBack(letters, lines, v);
    again, P', E', J' := LoadAgain(text, filename, letters, v, db, P, E, J);
    SameView(db, again, P, E, J, P', E', J', v);
  }

  /** Saving only touches the flags, and puts them back. */
  method SaveAgain(db: Database, lines: seq<Text>, ghost P: set<Package>, ghost E: set<Element>, ghost J: set<JSONValue>) returns (text: Text)
    requires db.Consistent(P, E, J) && db.Printable(J) && lines != []
    modifies J`saving
    ensures db.Consistent(P, E, J) && db.Printable(J) && View(db) == old(View(db))
    ensures Written(db.value, J) == old(Written(db.value, J))
    ensures text == [BOM] + Comments(lines) + Print(AsIs, Written(db.value, J))
  {
    hide Unfold, Closed, InOrder, Get, Print, Comments, Open, View, Apart, OneHome, Package.Agrees, Element.Agrees;
    EndsWithNewline(lines);
    var comments := Comments(lines);
    var header := comments[..|comments| - 1];
    assert header + [NEWLINE] == comments;
    ViewSays(db);
    AllKnown(db, P, E, J);
    var w := db.Save(header, J);
    assert forall n: Text, m: Text :: Find(db, n, m) == old(Find(db, n, m));
    ViewIs(db, old(View(db)));
    text := w.value.text;
  }

  method LoadAgain(text: Text, filename: Text, letters: Letters, ghost v: Value,
                   ghost db: Database, ghost P: set<Package>, ghost E: set<Element>, ghost J: set<JSONValue>)
    returns (again: Database, ghost P': set<Package>, ghost E': set<Element>, ghost J': set<JSONValue>)
    requires JsonText.Parse(letters, Normal(text)) == Read(v, [])
    requires db.Consistent(P, E, J) && Closed(Snapshot(J)) && Unfold(Snapshot(J), db.value, {}) == Done(v)
    ensures again.Consistent(P', E', J') && again.Printable(J') && Unfold(Snapshot(J'), again.value, {}) == Done(v)
  {
    hide Unfold, Closed, InOrder, MadeOne, Lex, ReadValue, Normal, Open, Database.Consistent;
    again := new Database();
    var r;
    r, P', E', J' := again.Load(filename, Some(text), letters);
    Remade(J', again.value, v);
    HoldsObjects(db, P, E, J, J', again.value, v);
  }

  lemma {:induction false} HoldsObjects(db: Database, P: set<Package>, E: set<Element>, J: set<JSONValue>, J': set<JSONValue>, root: JSONValue, v: Value)
    requires db.Consistent(P, E, J) && Closed(Snapshot(J)) && Unfold(Snapshot(J), db.value, {}) == Done(v)
    requires Closed(Snapshot(J')) && root in J' && InOrder(root.members) && Unfold(Snapshot(J'), root, {}) == Done(v)
    ensures ObjectOfObjects(root)
  {
    hide Unfold, Closed, InOrder, Member, Get, SaidBy, FindIn;
    SaysTheSame(db, P, E, J, J, v, [], []);
    forall n: Text ensures Member(v.members, n).Some? ==> Member(v.members, n).value.VObj? {
      SaysTheSame(db, P, E, J, J, v, n, []);
    }
    RootHoldsObjects(J', root, v);
  }

  /** Databases whose trees have the same value say the same. */
  lemma {:induction false} SameView(db: Database, again: Database, P: set<Package>, E: set<Element>, J: set<JSONValue>,
                                    P': set<Package>, E': set<Element>, J': set<JSONValue>, v: Value)
    requires db.Consistent(P, E, J) && Closed(Snapshot(J)) && Unfold(Snapshot(J), db.value, {}) == Done(v)
    requires again.Consistent(P', E', J') && Closed(Snapshot(J')) && Unfold(Snapshot(J'), again.value, {}) == Done(v)
    ensures View(again) == View(db)
  {
    hide Unfold, Closed, InOrder, Get, Member, FindIn, SaidBy, View;
    ViewSays(db);
    forall n: Text ensures Get(again.packages, n).Some? <==> n in View(db).packages {
      SaysTheSame(db, P, E, J, J, v, n, []);
      SaysTheSame(again, P', E', J', J', v, n, []);
    }
    forall n: Text, m: Text ensures Find(again, n, m) == At(View(db), n, m) {
      SaysTheSame(db, P, E, J, J, v, n, m);
      SaysTheSame(again, P', E', J', J', v, n, m);
    }
    ViewIs(again, View(db));
  }

  // ------------------------------------------------------------------
  //  The text in the file
  // ------------------------------------------------------------------

  lemma {:induction false} FieldNames()
    ensures TYPE == Codes("type") && FILENAME == Codes("filename") && LINE == Codes("line")
  {
    hide Codes;
    Spelled(TYPE, "type");
    Spelled(FILENAME, "filename");
    Spelled(LINE, "line");
  }

  function OneElement(file: Text, line: int, typeName: Text): Value {
    VObj([JsonText.Member(FILENAME, VStr(file)), JsonText.Member(LINE, VInt(line)), JsonText.Member(TYPE, VStr(typeName))])
  }

  /** A name, a colon and the text of a value. */
  function Field(name: Text, text: Text): Text {
    Quoted(AsIs, name) + [58] + text
  }

  /** How an element stands in the file. */
  lemma {:induction false} ElementText(file: Text, line: int, typeName: Text)
    ensures Print(AsIs, OneElement(file, line, typeName))
      == Codes("{") + Field(Codes("filename"), Quoted(AsIs, file)) + Codes(",") + Field(Codes("line"), Signed(line))
         + Codes(",") + Field(Codes("type"), Quoted(AsIs, typeName)) + Codes("}")
  {
    hide Quoted, Signed, Field, Print;
    FieldNames();
    PrintThree(JsonText.Member(FILENAME, VStr(file)), JsonText.Member(LINE, VInt(line)), JsonText.Member(TYPE, VStr(typeName)));
    PrintLeaf(file, line);
    PrintLeaf(typeName, line);
    assert Codes("{") == [123] && Codes(",") == [44] && Codes("}") == [125];
  }

  lemma {:induction false} PrintLeaf(text: Text, n: int)
    ensures Print(AsIs, VStr(text)) == Quoted(AsIs, text) && Print(AsIs, VInt(n)) == Signed(n)
  {
  }

  /** What that says. */
  lemma {:induction false} ElementSays(file: Text, line: int, typeName: Text, package: Text, element: Text)
    requires -0x8000_0000 <= line < 0x8000_0000
    ensures SaidBy(VObj([JsonText.Member(package, VObj([JsonText.Member(element, OneElement(file, line, typeName))]))]), package, element)
      == Some(Data(typeName, file, line))
  {
    hide Wrap32;
    Wrap32Keeps(line);
    assert TYPE[0] != FILENAME[0] && TYPE[0] != LINE[0] && LINE[0] != FILENAME[0];
    var fs := OneElement(file, line, typeName).members;
    assert fs[1..][1..] == [fs[2]] && fs[1..][0] == fs[1];
    assert Member(fs[1..][1..], TYPE) == Some(VStr(typeName));
    assert Member(fs[1..], LINE) == Some(VInt(line)) && Member(fs[1..], TYPE) == Member(fs[1..][1..], TYPE);
    assert Member(fs, FILENAME) == Some(VStr(file)) && Member(fs, LINE) == Some(VInt(line)) && Member(fs, TYPE) == Some(VStr(typeName));
  }

  lemma {:induction false} PrintThree(a: JsonText.Member, b: JsonText.Member, c: JsonText.Member)
    ensures Print(AsIs, VObj([a, b, c]))
      == [123] + Field(a.name, Print(AsIs, a.value)) + [44] + Field(b.name, Print(AsIs, b.value))
         + [44] + Field(c.name, Print(AsIs, c.value)) + [125]
  {
    hide Quoted;
    assert [a, b, c][1..] == [b, c] && [b, c][1..] == [c];
    var x, y, z := Field(a.name, Print(AsIs, a.value)), Field(b.name, Print(AsIs, b.value)), Field(c.name, Print(AsIs, c.value));
    assert z + [] == z;
    assert PrintMembers(AsIs, [c]) == z;
    assert PrintMembers(AsIs, [b, c]) == y + ([44] + z);
    assert PrintMembers(AsIs, [a, b, c]) == x + ([44] + (y + ([44] + z)));
    Regroup(x, y, z);
  }

  lemma {:induction false} Regroup(x: Text, y: Text, z: Text)
    ensures [123] + (x + ([44] + (y + ([44] + z)))) + [125] == [123] + x + [44] + y + [44] + z + [125]
  {
  }
}
