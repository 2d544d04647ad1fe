/** Which sequences of tokens the reader accepts, and that it accepts no others. */
module JsonGrammar {
  import opened Text
  import opened LexerSpec
  import opened JsonText

  /** A value, as a tree of tokens. */
  datatype Shape =
    | Leaf(token: Token)
    | Plus(n: int)
    | Minus(n: int)
    | List(items: seq<Shape>)
    | Object(entries: seq<Entry>)

  datatype Entry = Entry(name: Text, value: Shape)

  predicate IsLeaf(t: Token) {
    t.Null? || t.True? || t.False? || t.Str? || t.Int?
  }

  predicate LegalShape(x: Shape)
    decreases x, 1
  {
    match x
    case Leaf(t) => IsLeaf(t)
    case Plus(_) => true
    case Minus(_) => true
    case List(items) => forall i :: 0 <= i < |items| ==> LegalShape(items[i])
    case Object(entries) => forall i :: 0 <= i < |entries| ==> LegalEntry(entries[i])
  }

  predicate LegalEntry(e: Entry)
    decreases e, 2
  {
    LegalShape(e.value)
  }

  function ShapeTokens(x: Shape): (r: seq<Token>)
    ensures r != []
    decreases x, 1
  {
    match x
    case Leaf(t) => [t]
    case Plus(n) => [Add, Int(n)]
    case Minus(n) => [Subtract, Int(n)]
    case List(items) => [OpenSquare] + ListTokens(items)
    case Object(entries) => [OpenCurly] + ObjectTokens(entries)
  }

  /** The items with commas between them, and the bracket. */
  function ListTokens(items: seq<Shape>): (r: seq<Token>)
    ensures r != []
    decreases items, 0
  {
    if items == [] then [CloseSquare]
    else ShapeTokens(items[0]) + if |items| == 1 then [CloseSquare] else [Comma] + ListTokens(items[1..])
  }

  function ObjectTokens(entries: seq<Entry>): (r: seq<Token>)
    ensures r != []
    decreases entries, 0
  {
    if entries == [] then [CloseCurly]
    else
      [Str(entries[0].name), Colon] + EntryTokens(entries[0])
      + if |entries| == 1 then [CloseCurly] else [Comma] + ObjectTokens(entries[1..])
  }

  function EntryTokens(e: Entry): (r: seq<Token>)
    ensures r != []
    decreases e, 2
  {
    ShapeTokens(e.value)
  }

  function ShapeValue(x: Shape): Value
    decreases x, 1
  {
    match x
    case Leaf(t) => (match t case Null => VNull case True => VBool(true) case False => VBool(false)
                     case Str(text) => VStr(text) case Int(n) => VInt(n) case _ => VNull)
    case Plus(n) => VInt(n)
    case Minus(n) => VInt(Wrap64(-n))
    case List(items) => VArr(ListValues(items))
    case Object(entries) => VObj(ObjectValues([], entries))
  }

  function ListValues(items: seq<Shape>): seq<Value>
    decreases items, 0
  {
    if items == [] then [] else [ShapeValue(items[0])] + ListValues(items[1..])
  }

  function ObjectValues(ms: seq<Member>, entries: seq<Entry>): seq<Member>
    decreases entries, 0
  {
    if entries == [] then ms else ObjectValues(AddEntry(ms, entries[0]), entries[1..])
  }

  function AddEntry(ms: seq<Member>, e: Entry): seq<Member>
    decreases e, 2
  {
    if HasName(ms, e.name) then ms else Insert(ms, Member(e.name, ShapeValue(e.value)))
  }

  /** The tokens of `s` are these, and then comes `rest`. */
  predicate LexesTo(letters: Letters, s: Text, ts: seq<Token>, rest: Text)
    decreases |ts|
  {
    if ts == [] then s == rest else Lex(letters, s).0 == ts[0] && LexesTo(letters, Lex(letters, s).1, ts[1..], rest)
  }

  /** The same when the first token is read already. */
  predicate Follows(letters: Letters, t: Token, s: Text, ts: seq<Token>, rest: Text) {
    ts != [] && ts[0] == t && LexesTo(letters, s, ts[1..], rest)
  }

  lemma {:induction false} OneToken(letters: Letters, s: Text, t: Token, rest: Text)
    ensures LexesTo(letters, s, [t], rest) <==> Lex(letters, s) == (t, rest)
  {
    hide Lex;
    assert [t][1..] == [];
    assert forall u :: LexesTo(letters, u, [], rest) <==> u == rest;
  }

  lemma {:induction false} LexesJoin(letters: Letters, s: Text, a: seq<Token>, m: Text, b: seq<Token>, rest: Text)
    requires LexesTo(letters, s, a, m) && LexesTo(letters, m, b, rest)
    ensures LexesTo(letters, s, a + b, rest)
    decreases |a|
  {
    hide Lex;
    if a == [] {
      assert a + b == b;
    } else {
      assert (a + b)[1..] == a[1..] + b;
      LexesJoin(letters, Lex(letters, s).1, a[1..], m, b, rest);
    }
  }

  lemma {:induction false} LexesPart(letters: Letters, s: Text, a: seq<Token>, b: seq<Token>, rest: Text) returns (m: Text)
    requires LexesTo(letters, s, a + b, rest)
    ensures LexesTo(letters, s, a, m) && LexesTo(letters, m, b, rest)
    decreases |a|
  {
    hide Lex;
    if a == [] {
      assert a + b == b;
      m := s;
    } else {
      assert (a + b)[1..] == a[1..] + b;
      m := LexesPart(letters, Lex(letters, s).1, a[1..], b, rest);
    }
  }

  lemma {:induction false} FollowsJoin(letters: Letters, t: Token, s: Text, a: seq<Token>, m: Text, b: seq<Token>, rest: Text)
    requires Follows(letters, t, s, a, m) && LexesTo(letters, m, b, rest)
    ensures Follows(letters, t, s, a + b, rest)
  {
    hide Lex, LexesTo;
    assert (a + b)[1..] == a[1..] + b;
    LexesJoin(letters, s, a[1..], m, b, rest);
  }

  lemma {:induction false} FollowsPart(letters: Letters, t: Token, s: Text, a: seq<Token>, b: seq<Token>, rest: Text) returns (m: Text)
    requires Follows(letters, t, s, a + b, rest) && a != []
    ensures Follows(letters, t, s, a, m) && LexesTo(letters, m, b, rest)
  {
    hide Lex, LexesTo;
    assert (a + b)[1..] == a[1..] + b;
    m := LexesPart(letters, s, a[1..], b, rest);
  }

  // ------------------------------------------------------------------
  //  What is read has such tokens
  // ------------------------------------------------------------------

  lemma {:induction false} ShapeFrom(letters: Letters, t: Token, s: Text) returns (x: Shape)
    requires ReadValue(letters, t, s).Read?
    ensures var r := ReadValue(letters, t, s);
      LegalShape(x) && ShapeValue(x) == r.value && Follows(letters, t, s, ShapeTokens(x), r.rest)
    decreases |s| + (if t == EndOfInput then 0 else 1), 1
  {
    hide Lex;
    var (u, s') := Lex(letters, s);
    if t.Add? {
      x := Plus(u.value);
      OneToken(letters, s, u, s');
      assert ShapeTokens(x)[1..] == [Int(u.value)];
    } else if t.Subtract? {
      x := Minus(u.value);
      OneToken(letters, s, u, s');
      assert ShapeTokens(x)[1..] == [Int(u.value)];
    } else if t.OpenSquare? {
      var items := [];
      if u == CloseSquare {
        OneToken(letters, s, u, s');
      } else {
        items := ItemsFrom(letters, u, s', []);
        FollowsLex(letters, s, ListTokens(items), ReadValue(letters, t, s).rest);
        assert [] + ListValues(items) == ListValues(items);
      }
      x := List(items);
      assert ShapeTokens(x)[1..] == ListTokens(items);
    } else if t.OpenCurly? {
      var entries := [];
      if u == CloseCurly {
        OneToken(letters, s, u, s');
      } else {
        entries := EntriesFrom(letters, u, s', []);
        FollowsLex(letters, s, ObjectTokens(entries), ReadValue(letters, t, s).rest);
      }
      x := Object(entries);
      assert ShapeTokens(x)[1..] == ObjectTokens(entries);
    } else {
      x := Leaf(t);
      assert ShapeTokens(x)[1..] == [];
    }
  }

  lemma {:induction false} ItemsFrom(letters: Letters, t: Token, s: Text, acc: seq<Value>) returns (items: seq<Shape>)
    requires ReadItems(letters, t, s, acc).Read?
    ensures var r := ReadItems(letters, t, s, acc);
      && items != [] && (forall i :: 0 <= i < |items| ==> LegalShape(items[i]))
      && r.value == VArr(acc + ListValues(items)) && Follows(letters, t, s, ListTokens(items), r.rest)
    decreases |s| + (if t == EndOfInput then 0 else 1), 2
  {
    hide Lex, ShapeTokens, ShapeValue, LegalShape, ReadValue, Follows;
    var x := ShapeFrom(letters, t, s);
    var v := ReadValue(letters, t, s);
    var (u, s1) := Lex(letters, v.rest);
    if u == CloseSquare {
      items := [x];
      assert items[1..] == [];
      OneToken(letters, v.rest, CloseSquare, s1);
      FollowsJoin(letters, t, s, ShapeTokens(x), v.rest, [CloseSquare], s1);
    } else {
      var (w, s2) := Lex(letters, s1);
      var more := ItemsFrom(letters, w, s2, acc + [v.value]);
      items := [x] + more;
      assert items[1..] == more;
      var rest := ReadItems(letters, t, s, acc).rest;
      FollowsLex(letters, s1, ListTokens(more), rest);
      LexesMore(letters, v.rest, Comma, s1, ListTokens(more), rest);
      FollowsJoin(letters, t, s, ShapeTokens(x), v.rest, [Comma] + ListTokens(more), rest);
      assert acc + [v.value] + ListValues(more) == acc + ListValues(items);
    }
  }

  lemma {:induction false} FollowsLex(letters: Letters, s: Text, ts: seq<Token>, rest: Text)
    requires ts != []
    ensures LexesTo(letters, s, ts, rest) <==> Follows(letters, Lex(letters, s).0, Lex(letters, s).1, ts, rest)
  {
    hide Lex;
  }

  lemma {:induction false} LexesMore(letters: Letters, s: Text, t: Token, s1: Text, ts: seq<Token>, rest: Text)
    requires Lex(letters, s) == (t, s1)
    ensures LexesTo(letters, s, [t] + ts, rest) <==> LexesTo(letters, s1, ts, rest)
  {
    hide Lex;
    assert ([t] + ts)[1..] == ts;
  }

  lemma {:induction false} EntriesFrom(letters: Letters, t: Token, s: Text, ms: seq<Member>) returns (entries: seq<Entry>)
    requires ReadMembers(letters, t, s, ms).Read?
    ensures var r := ReadMembers(letters, t, s, ms);
      && entries != [] && (forall i :: 0 <= i < |entries| ==> LegalEntry(entries[i]))
      && r.value == VObj(ObjectValues(ms, entries)) && Follows(letters, t, s, ObjectTokens(entries), r.rest)
    decreases |s| + (if t == EndOfInput then 0 else 1), 0
  {
    hide Lex, ShapeTokens, ShapeValue, LegalShape, ReadValue, Insert, HasName, Follows, LexesTo;
    var (colon, s1) := Lex(letters, s);
    var (u, s2) := Lex(letters, s1);
    var x := ShapeFrom(letters, u, s2);
    var v := ReadValue(letters, u, s2);
    var e := Entry(t.text, x);
    var (w, s3) := Lex(letters, v.rest);
    var rest := ReadMembers(letters, t, s, ms).rest;
    var tail;
    if w == CloseCurly {
      entries := [e];
      tail := [CloseCurly];
      assert entries[1..] == [];
      OneToken(letters, v.rest, CloseCurly, s3);
    } else {
      var (y, s4) := Lex(letters, s3);
      var more := EntriesFrom(letters, y, s4, AddEntry(ms, e));
      entries := [e] + more;
      assert entries[1..] == more;
      tail := [Comma] + ObjectTokens(more);
      FollowsLex(letters, s3, ObjectTokens(more), rest);
      LexesMore(letters, v.rest, Comma, s3, ObjectTokens(more), rest);
    }
    FollowsJoin(letters, u, s2, ShapeTokens(x), v.rest, tail, rest);
    EntryFollows(letters, t, s, s1, ShapeTokens(x) + tail, rest);
    assert ObjectTokens(entries) == [Str(t.text), Colon] + (ShapeTokens(x) + tail);
  }

  /** A name and a colon before what follows. */
  lemma {:induction false} EntryFollows(letters: Letters, t: Token, s: Text, s1: Text, ts: seq<Token>, rest: Text)
    requires Lex(letters, s) == (Colon, s1) && t.Str? && ts != []
    ensures Follows(letters, t, s, [Str(t.text), Colon] + ts, rest)
      <==> Follows(letters, Lex(letters, s1).0, Lex(letters, s1).1, ts, rest)
  {
    hide Lex;
    var all := [Str(t.text), Colon] + ts;
    assert all[1..] == [Colon] + ts;
    LexesMore(letters, s, Colon, s1, ts, rest);
    FollowsLex(letters, s1, ts, rest);
  }

  // ------------------------------------------------------------------
  //  What has such tokens is read
  // ------------------------------------------------------------------

  lemma {:induction false} FromShape(letters: Letters, t: Token, s: Text, x: Shape, rest: Text)
    requires LegalShape(x) && Follows(letters, t, s, ShapeTokens(x), rest)
    ensures ReadValue(letters, t, s) == Read(ShapeValue(x), rest)
    decreases x, 1
  {
    hide Lex;
    var (u, s') := Lex(letters, s);
    match x {
      case Leaf(_) =>
        assert ShapeTokens(x)[1..] == [];
      case Plus(n) =>
        assert ShapeTokens(x)[1..] == [Int(n)];
        OneToken(letters, s, Int(n), rest);
      case Minus(n) =>
        assert ShapeTokens(x)[1..] == [Int(n)];
        OneToken(letters, s, Int(n), rest);
      case List(items) =>
        assert ShapeTokens(x)[1..] == ListTokens(items);
        if items == [] {
          OneToken(letters, s, CloseSquare, rest);
        } else {
          FollowsLex(letters, s, ListTokens(items), rest);
          FromItems(letters, u, s', items, [], rest);
          FirstIsNoEnd(items[0]);
          assert [] + ListValues(items) == ListValues(items);
        }
      case Object(entries) =>
        assert ShapeTokens(x)[1..] == ObjectTokens(entries);
        if entries == [] {
          OneToken(letters, s, CloseCurly, rest);
        } else {
          FollowsLex(letters, s, ObjectTokens(entries), rest);
          FromEntries(letters, u, s', entries, [], rest);
        }
    }
  }

  lemma {:induction false} FirstIsNoEnd(x: Shape)
    requires LegalShape(x)
    ensures ShapeTokens(x)[0] != CloseSquare
  {
  }

  lemma {:induction false} FromItems(letters: Letters, t: Token, s: Text, items: seq<Shape>, acc: seq<Value>, rest: Text)
    requires items != [] && (forall i :: 0 <= i < |items| ==> LegalShape(items[i])) && Follows(letters, t, s, ListTokens(items), rest)
    ensures ReadItems(letters, t, s, acc) == Read(VArr(acc + ListValues(items)), rest)
    decreases items, 0
  {
    hide Lex, ShapeTokens, ShapeValue, LegalShape, ReadValue, Follows;
    var tail := if |items| == 1 then [CloseSquare] else [Comma] + ListTokens(items[1..]);
    var m := FollowsPart(letters, t, s, ShapeTokens(items[0]), tail, rest);
    FromShape(letters, t, s, items[0], m);
    var (u, s1) := Lex(letters, m);
    if |items| == 1 {
      OneToken(letters, m, CloseSquare, rest);
      assert items[1..] == [];
      assert ListValues(items) == [ShapeValue(items[0])] + ListValues([]);
      assert ListValues(items) == [ShapeValue(items[0])];
    } else {
      LexesMore(letters, m, Comma, s1, ListTokens(items[1..]), rest);
      FollowsLex(letters, s1, ListTokens(items[1..]), rest);
      FromItems(letters, Lex(letters, s1).0, Lex(letters, s1).1, items[1..], acc + [ShapeValue(items[0])], rest);
      assert acc + [ShapeValue(items[0])] + ListValues(items[1..]) == acc + ListValues(items);
    }
  }

  lemma {:induction false} FromEntries(letters: Letters, t: Token, s: Text, entries: seq<Entry>, ms: seq<Member>, rest: Text)
    requires entries != [] && (forall i :: 0 <= i < |entries| ==> LegalEntry(entries[i])) && Follows(letters, t, s, ObjectTokens(entries), rest)
    ensures ReadMembers(letters, t, s, ms) == Read(VObj(ObjectValues(ms, entries)), rest)
    decreases entries, 0
  {
    hide Lex, ShapeTokens, ShapeValue, LegalShape, ReadValue, Follows, Insert, HasName;
    var e := entries[0];
    assert LegalEntry(e);
    var tail := if |entries| == 1 then [CloseCurly] else [Comma] + ObjectTokens(entries[1..]);
    assert ObjectTokens(entries) == [Str(e.name), Colon] + (ShapeTokens(e.value) + tail);
    NameIsFirst(letters, t, s, e.name, ShapeTokens(e.value) + tail, rest);
    var (_, s1) := Lex(letters, s);
    EntryFollows(letters, t, s, s1, ShapeTokens(e.value) + tail, rest);
    var (u, s2) := Lex(letters, s1);
    var m := FollowsPart(letters, u, s2, ShapeTokens(e.value), tail, rest);
    FromShape(letters, u, s2, e.value, m);
    var (w, s3) := Lex(letters, m);
    if |entries| == 1 {
      OneToken(letters, m, CloseCurly, rest);
      assert entries[1..] == [];
    } else {
      LexesMore(letters, m, Comma, s3, ObjectTokens(entries[1..]), rest);
      FollowsLex(letters, s3, ObjectTokens(entries[1..]), rest);
      FromEntries(letters, Lex(letters, s3).0, Lex(letters, s3).1, entries[1..], AddEntry(ms, e), rest);
    }
  }

  lemma {:induction false} NameIsFirst(letters: Letters, t: Token, s: Text, name: Text, ts: seq<Token>, rest: Text)
    requires Follows(letters, t, s, [Str(name), Colon] + ts, rest)
    ensures t == Str(name) && Lex(letters, s).0 == Colon
  {
    hide Lex;
    assert ([Str(name), Colon] + ts)[1..] == [Colon] + ts;
  }

  /** A text is read as a value, and `rest` is left, exactly when its tokens up to `rest` are those of such a tree. */
  lemma {:induction false} ReadIffGrammar(letters: Letters, s: Text, v: Value, rest: Text)
    ensures Parse(letters, s) == Read(v, rest)
      <==> exists x :: LegalShape(x) && ShapeValue(x) == v && LexesTo(letters, s, ShapeTokens(x), rest)
  {
    hide Lex, ReadValue, LegalShape, ShapeValue, ShapeTokens, LexesTo, Follows;
    var (t, s1) := Lex(letters, s);
    if Parse(letters, s) == Read(v, rest) {
      var x := ShapeFrom(letters, t, s1);
      FollowsLex(letters, s, ShapeTokens(x), rest);
    }
    if x :| LegalShape(x) && ShapeValue(x) == v && LexesTo(letters, s, ShapeTokens(x), rest) {
      FollowsLex(letters, s, ShapeTokens(x), rest);
      FromShape(letters, t, s1, x, rest);
    }
  }
}
