/** The JSON reader: tokens to new JSON values, proved against `ReadValue`. */
module JsonReader {
  import opened Text
  import opened LexerSpec
  import opened JsonText
  import opened OrderedMaps
  import opened Lexing
  import opened JsonGraph
  import opened JsonCycles
  import opened JsonTrees

  /** A pointer to a value, the null pointer, or an exception. */
  datatype Reading = Made(value: JSONValue) | NullPointer | TooBigNumber | NotModelled

  ghost predicate Same(r: Reading, p: Parsed) {
    match p
    case Read(_, _) => r.Made?
    case Rejected => r == NullPointer
    case Raised => r == TooBigNumber
    case Outside => r == NotModelled
  }

  function Refused(t: Token): (r: Reading)
    ensures Same(r, Refuse(t))
  {
    if t == Unmodelled then NotModelled else if t == TooBig then TooBigNumber else NullPointer
  }

  // ------------------------------------------------------------------
  //  Objects that hold values
  // ------------------------------------------------------------------

  ghost predicate Holds(g: Graph, o: JSONValue, v: Value) {
    Closed(g) && o in g.Keys && Unfold(g, o, {}) == Done(v)
  }

  ghost predicate HoldAll(g: Graph, kids: seq<JSONValue>, vs: seq<Value>) {
    |kids| == |vs| && forall i :: 0 <= i < |kids| ==> Holds(g, kids[i], vs[i])
  }

  ghost predicate HoldMembers(g: Graph, es: seq<Entry<JSONValue>>, ms: seq<Member>) {
    |es| == |ms| && forall i :: 0 <= i < |es| ==> es[i].name == ms[i].name && Holds(g, es[i].value, ms[i].value)
  }

  /** A graph that grows. */
  ghost predicate Grows(g: Graph, h: Graph) {
    Closed(g) && Closed(h) && Agree(g, h, g.Keys)
  }

  lemma {:induction false} StillHolds(g: Graph, h: Graph, o: JSONValue, v: Value)
    requires Grows(g, h) && Holds(g, o, v)
    ensures Holds(h, o, v)
  {
    UnfoldFrame(g, h, g.Keys, o, {}, {});
  }

  lemma {:induction false} UnfoldHeld(g: Graph, kids: seq<JSONValue>, vs: seq<Value>)
    requires Closed(g) && HoldAll(g, kids, vs)
    ensures AllIn(kids, g.Keys) && UnfoldAll(g, kids, {}) == AllDone(vs)
  {
    if kids != [] {
      UnfoldHeld(g, kids[1..], vs[1..]);
      assert [vs[0]] + vs[1..] == vs;
    }
  }

  /** A new container whose children are held. */
  lemma {:induction false} NewContainer(g: Graph, h: Graph, o: JSONValue, vs: seq<Value>)
    requires Grows(g, h) && o in h.Keys && o !in g.Keys && HoldAll(g, Kids(h[o]), vs)
    ensures Holds(h, o, Rebuild(h[o], vs))
  {
    var kids := Kids(h[o]);
    UnfoldHeld(g, kids, vs);
    UnfoldAllFrame(g, h, g.Keys, kids, {}, {o});
    assert {} + {o} == {o};
    UnfoldContainer(h, o, {});
  }

  lemma {:induction false} ZipHeld(g: Graph, es: seq<Entry<JSONValue>>, ms: seq<Member>) returns (vs: seq<Value>)
    requires HoldMembers(g, es, ms)
    ensures HoldAll(g, EntryValues(es), vs) && Zip(es, vs) == ms
  {
    if es == [] {
      vs := [];
    } else {
      var vs' := ZipHeld(g, es[1..], ms[1..]);
      vs := [ms[0].value] + vs';
      assert vs[1..] == vs' && [ms[0]] + ms[1..] == ms;
      assert EntryValues(es) == [es[0].value] + EntryValues(es[1..]);
    }
  }

  lemma {:induction false} InsertHeld(g: Graph, es: seq<Entry<JSONValue>>, ms: seq<Member>, e: Entry<JSONValue>, v: Value)
    requires HoldMembers(g, es, ms) && Holds(g, e.value, v) && !HasEntry(es, e.name)
    ensures HoldMembers(g, Put(es, e.name, e.value), Insert(ms, Member(e.name, v)))
  {
    hide Holds, Less;
    if es != [] && !Less(e.name, es[0].name) {
      assert es[0].name != e.name;
      InsertHeld(g, es[1..], ms[1..], e, v);
    }
  }

  predicate HasEntry(es: seq<Entry<JSONValue>>, name: Text) {
    exists i :: 0 <= i < |es| && es[i].name == name
  }

  lemma {:induction false} SameNames(g: Graph, es: seq<Entry<JSONValue>>, ms: seq<Member>, name: Text)
    requires HoldMembers(g, es, ms)
    ensures HasEntry(es, name) <==> HasName(ms, name)
  {
    if HasEntry(es, name) {
      var i :| 0 <= i < |es| && es[i].name == name;
      assert ms[i].name == name;
    }
    if HasName(ms, name) {
      var i :| 0 <= i < |ms| && ms[i].name == name;
      assert es[i].name == name;
    }
  }

  // ------------------------------------------------------------------
  //  The heap
  // ------------------------------------------------------------------

  /** Two sets of objects seen together. */
  lemma {:induction false} Together(S: set<JSONValue>, T: set<JSONValue>)
    requires Closed(Snapshot(S)) && Closed(Snapshot(T))
    ensures Grows(Snapshot(S), Snapshot(S + T)) && Grows(Snapshot(T), Snapshot(S + T))
  {
    var g, t, h := Snapshot(S), Snapshot(T), Snapshot(S + T);
    forall o | o in h.Keys ensures AllIn(Kids(h[o]), h.Keys) {
      if o in S {
        assert AllIn(Kids(g[o]), g.Keys);
      } else {
        assert AllIn(Kids(t[o]), t.Keys);
      }
    }
  }

  /** One more object, whose children are in the set. */
  lemma {:induction false} OneMore(S: set<JSONValue>, o: JSONValue)
    requires Closed(Snapshot(S)) && o !in S && AllIn(Kids(o.GetCell()), S)
    ensures Grows(Snapshot(S), Snapshot(S + {o})) && Snapshot(S + {o})[o] == o.GetCell()
  {
    var g, h := Snapshot(S), Snapshot(S + {o});
    forall x | x in h.Keys ensures AllIn(Kids(h[x]), h.Keys) {
      if x in S {
        assert AllIn(Kids(g[x]), g.Keys);
      }
    }
  }

  lemma {:induction false} HoldAllStill(g: Graph, h: Graph, kids: seq<JSONValue>, vs: seq<Value>)
    requires Grows(g, h) && HoldAll(g, kids, vs)
    ensures HoldAll(h, kids, vs)
  {
    forall i | 0 <= i < |kids| ensures Holds(h, kids[i], vs[i]) {
      StillHolds(g, h, kids[i], vs[i]);
    }
  }

  lemma {:induction false} HoldMembersStill(g: Graph, h: Graph, es: seq<Entry<JSONValue>>, ms: seq<Member>)
    requires Grows(g, h) && HoldMembers(g, es, ms)
    ensures HoldMembers(h, es, ms)
  {
    forall i | 0 <= i < |es| ensures Holds(h, es[i].value, ms[i].value) {
      StillHolds(g, h, es[i].value, ms[i].value);
    }
  }

  lemma {:induction false} AppendHeld(g: Graph, kids: seq<JSONValue>, vs: seq<Value>, o: JSONValue, v: Value)
    requires HoldAll(g, kids, vs) && Holds(g, o, v)
    ensures HoldAll(g, kids + [o], vs + [v])
  {
  }

  /** No value is being printed, and members are in key order. */
  ghost predicate Clean(S: set<JSONValue>)
    reads S`saving, S`members
  {
    forall o :: o in S ==> !o.saving && InOrder(o.members)
  }

  /** `o` holds the value `v`, and nothing in it is shared. */
  ghost predicate MadeOne(S: set<JSONValue>, o: JSONValue, v: Value)
    reads S
  {
    Clean(S) && Holds(Snapshot(S), o, v) && Trees(Snapshot(S), [o])
  }

  ghost predicate MadeItems(S: set<JSONValue>, items: seq<JSONValue>, vs: seq<Value>)
    reads S
  {
    Clean(S) && Closed(Snapshot(S)) && HoldAll(Snapshot(S), items, vs) && Trees(Snapshot(S), items)
  }

  ghost predicate MadeMembers(S: set<JSONValue>, es: seq<Entry<JSONValue>>, ms: seq<Member>)
    reads S
  {
    Clean(S) && Closed(Snapshot(S)) && HoldMembers(Snapshot(S), es, ms) && Trees(Snapshot(S), EntryValues(es)) && InOrder(es)
  }

  lemma {:induction false} Nothing()
    ensures MadeItems({}, [], []) && MadeMembers({}, [], [])
  {
  }

  lemma {:induction false} TwoSets(S: set<JSONValue>, T: set<JSONValue>)
    requires Closed(Snapshot(S)) && Closed(Snapshot(T)) && S !! T
    ensures SideBySide(Snapshot(S), Snapshot(T), Snapshot(S + T))
  {
  }

  lemma {:induction false} AddItem(S: set<JSONValue>, T: set<JSONValue>, items: seq<JSONValue>, vs: seq<Value>, o: JSONValue, v: Value)
    requires MadeItems(S, items, vs) && MadeOne(T, o, v) && S !! T
    ensures MadeItems(S + T, items + [o], vs + [v])
  {
    hide Unfold, Trees, SideBySide, Grows, Snapshot;
    var g, t, h := Snapshot(S), Snapshot(T), Snapshot(S + T);
    Together(S, T);
    HoldAllStill(g, h, items, vs);
    StillHolds(t, h, o, v);
    AppendHeld(h, items, vs, o, v);
    TwoSets(S, T);
    OneMoreRoot(g, t, h, items, o);
  }

  lemma {:induction false} NoEntry(es: seq<Entry<JSONValue>>, name: Text)
    requires !HasEntry(es, name)
    ensures Get(es, name) == None
  {
    if es != [] {
      assert es[0].name != name;
      forall i | 0 <= i < |es| - 1 ensures es[1..][i].name != name {
        assert es[i + 1].name != name;
      }
      NoEntry(es[1..], name);
    }
  }

  lemma {:induction false} AddMember(S: set<JSONValue>, T: set<JSONValue>, es: seq<Entry<JSONValue>>, ms: seq<Member>, e: Entry<JSONValue>, v: Value)
    requires MadeMembers(S, es, ms) && MadeOne(T, e.value, v) && S !! T
    ensures HasEntry(es, e.name) <==> HasName(ms, e.name)
    ensures MadeMembers(S + T, es, ms)
    ensures !HasEntry(es, e.name) ==> MadeMembers(S + T, Put(es, e.name, e.value), Insert(ms, Member(e.name, v)))
  {
    hide Unfold, Trees, SideBySide, Grows, Snapshot, InOrder, Put, Insert, HasEntry, HasName, HoldMembers;
    var g, t, h := Snapshot(S), Snapshot(T), Snapshot(S + T);
    Together(S, T);
    HoldMembersStill(g, h, es, ms);
    StillHolds(t, h, e.value, v);
    SameNames(h, es, ms, e.name);
    TwoSets(S, T);
    OneMoreRoot(g, t, h, EntryValues(es), e.value);
    if !HasEntry(es, e.name) {
      InsertHeld(h, es, ms, e, v);
      PutInOrder(es, e.name, e.value);
      NoEntry(es, e.name);
      var k := PutValues(es, e.name, e.value);
      InsertRoot(h, EntryValues(es), e.value, k);
    }
  }

  lemma {:induction false} MakeArray(S: set<JSONValue>, items: seq<JSONValue>, vs: seq<Value>, o: JSONValue)
    requires MadeItems(S, items, vs) && o !in S && !o.saving && o.members == [] && o.GetCell() == Items(items)
    ensures MadeOne(S + {o}, o, VArr(vs))
  {
    hide Trees;
    OneMore(S, o);
    NewContainer(Snapshot(S), Snapshot(S + {o}), o, vs);
    NewRoot(Snapshot(S), Snapshot(S + {o}), items, o);
  }

  lemma {:induction false} MakeObject(S: set<JSONValue>, es: seq<Entry<JSONValue>>, ms: seq<Member>, o: JSONValue)
    requires MadeMembers(S, es, ms) && o !in S && !o.saving && o.members == es && o.GetCell() == Members(es)
    ensures MadeOne(S + {o}, o, VObj(ms))
  {
    hide Trees, InOrder;
    var vs := ZipHeld(Snapshot(S), es, ms);
    OneMore(S, o);
    NewContainer(Snapshot(S), Snapshot(S + {o}), o, vs);
    NewRoot(Snapshot(S), Snapshot(S + {o}), EntryValues(es), o);
  }

  // ------------------------------------------------------------------
  //  One step of the reader
  // ------------------------------------------------------------------

  lemma {:induction false} ReadScalar(letters: Letters, t: Token, s: Text)
    ensures t.Null? ==> ReadValue(letters, t, s) == Read(VNull, s)
    ensures t.True? ==> ReadValue(letters, t, s) == Read(VBool(true), s)
    ensures t.False? ==> ReadValue(letters, t, s) == Read(VBool(false), s)
    ensures t.Str? ==> ReadValue(letters, t, s) == Read(VStr(t.text), s)
    ensures t.Int? ==> ReadValue(letters, t, s) == Read(VInt(t.value), s)
  {
  }

  lemma {:induction false} ReadOther(letters: Letters, t: Token, s: Text)
    requires !(t.Null? || t.True? || t.False? || t.Str? || t.Int? || t.Add? || t.Subtract? || t.OpenSquare? || t.OpenCurly?)
    ensures ReadValue(letters, t, s) == Refuse(t)
  {
  }

  lemma {:induction false} ReadSigned(letters: Letters, t: Token, s: Text)
    requires t == Add || t == Subtract
    ensures var (u, s') := Lex(letters, s);
      ReadValue(letters, t, s) ==
      if !u.Int? then Refuse(u) else Read(VInt(if t == Add then u.value else Wrap64(-u.value)), s')
  {
  }

  lemma {:induction false} StartArray(letters: Letters, s: Text)
    ensures var (u, s') := Lex(letters, s);
      ReadValue(letters, OpenSquare, s) == if u == CloseSquare then Read(VArr([]), s') else ReadItems(letters, u, s', [])
  {
  }

  lemma {:induction false} StartObject(letters: Letters, s: Text)
    ensures var (u, s') := Lex(letters, s);
      ReadValue(letters, OpenCurly, s) == if u == CloseCurly then Read(VObj([]), s') else ReadMembers(letters, u, s', [])
  {
  }

  lemma {:induction false} ReadItemsStep(letters: Letters, n: Token, s: Text, vs: seq<Value>)
    ensures var v := ReadValue(letters, n, s);
      ReadItems(letters, n, s, vs) ==
      if !v.Read? then v
      else
        var (u, s') := Lex(letters, v.rest);
        if u == CloseSquare then Read(VArr(vs + [v.value]), s')
        else if u != Comma then Refuse(u)
        else var (w, s'') := Lex(letters, s'); ReadItems(letters, w, s'', vs + [v.value])
  {
  }

  /** A name, a colon and a value. */
  function OneMember(letters: Letters, t: Token, s: Text): (r: Parsed)
    ensures r.Read? ==> t.Str? && |r.rest| <= |s|
  {
    if !t.Str? then Refuse(t)
    else
      var (colon, s1) := Lex(letters, s);
      if colon != Colon then Refuse(colon) else var (u, s2) := Lex(letters, s1); ReadValue(letters, u, s2)
  }

  lemma {:induction false} ReadMembersStep(letters: Letters, t: Token, s: Text, ms: seq<Member>)
    ensures var v := OneMember(letters, t, s);
      ReadMembers(letters, t, s, ms) ==
      if !v.Read? then v
      else
        var more := if HasName(ms, t.text) then ms else Insert(ms, Member(t.text, v.value));
        var (w, s3) := Lex(letters, v.rest);
        if w == CloseCurly then Read(VObj(more), s3)
        else if w != Comma then Refuse(w)
        else var (x, s4) := Lex(letters, s3); ReadMembers(letters, x, s4, more)
  {
  }

  // ------------------------------------------------------------------
  //  The reader
  // ------------------------------------------------------------------

  method NewScalar(kind: Kind, integer: int, str: Text) returns (r: Reading, ghost S: set<JSONValue>)
    requires !kind.KArray? && !kind.KObject?
    ensures fresh(S) && r.Made?
    ensures MadeOne(S, r.value, ScalarOf(kind, integer, str))
  {
    var o := new JSONValue(kind, integer, str, [], []);
    S := {o};
    r := Made(o);
  }

  function ScalarOf(kind: Kind, integer: int, str: Text): Value {
    match kind
    case KTrue => VBool(true)
    case KFalse => VBool(false)
    case KInt => VInt(integer)
    case KString => VStr(str)
    case _ => VNull
  }

  method ReadJsonValue(lexer: Lexer, token: Token) returns (r: Reading, ghost S: set<JSONValue>)
    modifies lexer
    ensures fresh(S)
    ensures var p := ReadValue(lexer.letters, token, old(lexer.Left()));
      Same(r, p) && (p.Read? ==> lexer.Left() == p.rest && MadeOne(S, r.value, p.value))
    decreases |lexer.Left()| + (if token == EndOfInput then 0 else 1), 1
  {
    hide MadeOne, Lex, ReadValue, Wrap64, Lexer.Left;
    ReadScalar(lexer.letters, token, lexer.Left());
    S := {};
    match token
    case Null => r, S := NewScalar(KNull, 0, []);
    case True => r, S := NewScalar(KTrue, 0, []);
    case False => r, S := NewScalar(KFalse, 0, []);
    case Str(text) => r, S := NewScalar(KString, 0, text);
    case Int(n) => r, S := NewScalar(KInt, n, []);
    case Add =>
      ReadSigned(lexer.letters, token, lexer.Left());
      var n := lexer.GetNextToken();
      if n.Int? { r, S := NewScalar(KInt, n.value, []); } else { r := Refused(n); }
    case Subtract =>
      ReadSigned(lexer.letters, token, lexer.Left());
      var n := lexer.GetNextToken();
      if n.Int? { r, S := NewScalar(KInt, Wrap64(-n.value), []); } else { r := Refused(n); }
    case OpenSquare => r, S := ReadArray(lexer);
    case OpenCurly => r, S := ReadObject(lexer);
    case _ =>
      ReadOther(lexer.letters, token, lexer.Left());
      r := Refused(token);
  }

  method ReadArray(lexer: Lexer) returns (r: Reading, ghost S: set<JSONValue>)
    modifies lexer
    ensures fresh(S)
    ensures var p := ReadValue(lexer.letters, OpenSquare, old(lexer.Left()));
      Same(r, p) && (p.Read? ==> lexer.Left() == p.rest && MadeOne(S, r.value, p.value))
    decreases |lexer.Left()| + 1, 0
  {
    hide MadeOne, MadeItems, Lex, ReadValue, ReadItems, Lexer.Left;
    ghost var all := ReadValue(lexer.letters, OpenSquare, lexer.Left());
    StartArray(lexer.letters, lexer.Left());
    S := {};
    var items: seq<JSONValue> := [];
    ghost var vs: seq<Value> := [];
    Nothing();
    var n := lexer.GetNextToken();
    if n != CloseSquare {
      while true
        invariant |lexer.Left()| + (if n == EndOfInput then 0 else 1) <= old(|lexer.Left()|)
        invariant fresh(S) && MadeItems(S, items, vs)
        invariant all == ReadItems(lexer.letters, n, lexer.Left(), vs)
        decreases |lexer.Left()| + (if n == EndOfInput then 0 else 1)
      {
        ReadItemsStep(lexer.letters, n, lexer.Left(), vs);
        ghost var p := ReadValue(lexer.letters, n, lexer.Left());
        ghost var T;
        var value;
        value, T := ReadJsonValue(lexer, n);
        if !value.Made? {
          return value, S;
        }
        assert S !! T;
        AddItem(S, T, items, vs, value.value, p.value);
        S, vs := S + T, vs + [p.value];
        items := items + [value.value];
        n := lexer.GetNextToken();
        if n == CloseSquare {
          break;
        }
        if n != Comma {
          return Refused(n), S;
        }
        n := lexer.GetNextToken();
      }
    }
    var o := new JSONValue(KArray, 0, [], items, []);
    MakeArray(S, items, vs, o);
    S := S + {o};
    r := Made(o);
  }

  method ReadMember(lexer: Lexer, token: Token) returns (r: Reading, ghost S: set<JSONValue>)
    modifies lexer
    ensures fresh(S)
    ensures var p := OneMember(lexer.letters, token, old(lexer.Left()));
      Same(r, p) && (p.Read? ==> lexer.Left() == p.rest && MadeOne(S, r.value, p.value))
    decreases |lexer.Left()| + (if token == EndOfInput then 0 else 1), 1
  {
    hide MadeOne, Lex, ReadValue, Lexer.Left;
    S := {};
    if !token.Str? {
      return Refused(token), S;
    }
    var n := lexer.GetNextToken();
    if n != Colon {
      return Refused(n), S;
    }
    n := lexer.GetNextToken();
    r, S := ReadJsonValue(lexer, n);
  }

  method ReadObject(lexer: Lexer) returns (r: Reading, ghost S: set<JSONValue>)
    modifies lexer
    ensures fresh(S)
    ensures var p := ReadValue(lexer.letters, OpenCurly, old(lexer.Left()));
      Same(r, p) && (p.Read? ==> lexer.Left() == p.rest && MadeOne(S, r.value, p.value))
    decreases |lexer.Left()| + 1, 0
  {
    hide MadeOne, MadeMembers, Lex, OneMember, ReadMembers, Lexer.Left, HasName, HasEntry, Insert, Put;
    ghost var all := ReadValue(lexer.letters, OpenCurly, lexer.Left());
    StartObject(lexer.letters, lexer.Left());
    S := {};
    var obj: seq<Entry<JSONValue>> := [];
    ghost var ms: seq<Member> := [];
    Nothing();
    var n := lexer.GetNextToken();
    if n != CloseCurly {
      while true
        invariant |lexer.Left()| + (if n == EndOfInput then 0 else 1) <= old(|lexer.Left()|)
        invariant fresh(S) && MadeMembers(S, obj, ms)
        invariant all == ReadMembers(lexer.letters, n, lexer.Left(), ms)
        decreases |lexer.Left()| + (if n == EndOfInput then 0 else 1)
      {
        ReadMembersStep(lexer.letters, n, lexer.Left(), ms);
        ghost var p := OneMember(lexer.letters, n, lexer.Left());
        var value;
        ghost var T;
        value, T := ReadMember(lexer, n);
        if !value.Made? {
          return value, S;
        }
        var name := n.text;
        assert S !! T;
        AddMember(S, T, obj, ms, Entry(name, value.value), p.value);
        S := S + T;
        if !HasEntry(obj, name) {
          ms := Insert(ms, Member(name, p.value));
          obj := Put(obj, name, value.value);
        }
        n := lexer.GetNextToken();
        if n == CloseCurly {
          break;
        }
        if n != Comma {
          return Refused(n), S;
        }
        n := lexer.GetNextToken();
      }
    }
    var o := new JSONValue(KObject, 0, [], [], obj);
    MakeObject(S, obj, ms, o);
    S := S + {o};
    r := Made(o);
  }
}
