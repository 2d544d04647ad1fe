/** JSON values as shared, mutable objects, and printing them under the cycle guard. */
module JsonGraph {
  import opened Text
  import opened LexerSpec
  import opened JsonText
  import opened OrderedMaps

  datatype Kind = KNull | KTrue | KFalse | KInt | KString | KArray | KObject

  /** What `set_item()` and `set_member()` answer. */
  datatype Outcome = Changed | WrongType | OutOfRange | EmptyName | NoValue

  /** What `to_string()` answers: a text, or the cyclical structure exception. */
  datatype Printed = Printed(text: Text) | CyclicalStructure

  // ------------------------------------------------------------------
  //  The graph of the values
  // ------------------------------------------------------------------

  datatype Cell = Scalar(v: Value) | Items(items: seq<JSONValue>) | Members(members: seq<Entry<JSONValue>>)

  type Graph = map<JSONValue, Cell>

  function EntryValues(ms: seq<Entry<JSONValue>>): (r: seq<JSONValue>)
    ensures |r| == |ms| && forall i :: 0 <= i < |ms| ==> r[i] == ms[i].value
  {
    if ms == [] then [] else [ms[0].value] + EntryValues(ms[1..])
  }

  function Kids(c: Cell): seq<JSONValue> {
    match c
    case Scalar(_) => []
    case Items(items) => items
    case Members(ms) => EntryValues(ms)
  }

  ghost predicate AllIn(kids: seq<JSONValue>, s: set<JSONValue>) {
    forall i :: 0 <= i < |kids| ==> kids[i] in s
  }

  /** No pointer leaves the graph. */
  ghost predicate Closed(g: Graph) {
    forall o {:trigger g[o]} :: o in g.Keys ==> AllIn(Kids(g[o]), g.Keys)
  }

  function Zip(ms: seq<Entry<JSONValue>>, vs: seq<Value>): seq<Member> {
    if ms == [] || vs == [] then [] else [Member(ms[0].name, vs[0])] + Zip(ms[1..], vs[1..])
  }

  /** The value of a container whose children have the values `vs`. */
  function Rebuild(c: Cell, vs: seq<Value>): Value {
    match c
    case Scalar(v) => v
    case Items(_) => VArr(vs)
    case Members(ms) => VObj(Zip(ms, vs))
  }

  datatype Unfolded = Done(value: Value) | Cyclical
  datatype UnfoldedAll = AllDone(values: seq<Value>) | SomeCyclical

  lemma {:induction false} OneMoreOpen(s: set<JSONValue>, open: set<JSONValue>, o: JSONValue)
    requires o in s && o !in open
    ensures |s - (open + {o})| < |s - open|
  {
    assert s - (open + {o}) == (s - open) - {o};
  }

  /** The tree a value stands for; `open` are the containers being unfolded. */
  ghost function Unfold(g: Graph, o: JSONValue, open: set<JSONValue>): Unfolded
    requires Closed(g) && o in g.Keys
    decreases |g.Keys - open|, 0
  {
    var kids := Kids(g[o]);
    if kids == [] then Done(Rebuild(g[o], []))
    else if o in open then Cyclical
    else
      OneMoreOpen(g.Keys, open, o);
      match UnfoldAll(g, kids, open + {o})
      case SomeCyclical => Cyclical
      case AllDone(vs) => Done(Rebuild(g[o], vs))
  }

  ghost function UnfoldAll(g: Graph, kids: seq<JSONValue>, open: set<JSONValue>): (r: UnfoldedAll)
    requires Closed(g) && AllIn(kids, g.Keys)
    ensures r.AllDone? ==> |r.values| == |kids|
    decreases |g.Keys - open|, |kids|
  {
    if kids == [] then AllDone([])
    else
      match Unfold(g, kids[0], open)
      case Cyclical => SomeCyclical
      case Done(v) => Prepend([v], UnfoldAll(g, kids[1..], open))
  }

  function Prepend(vs: seq<Value>, u: UnfoldedAll): UnfoldedAll {
    if u.AllDone? then AllDone(vs + u.values) else u
  }

  function Shown(u: Unfolded): Printed {
    if u.Done? then Printed(Print(AsIs, u.value)) else CyclicalStructure
  }

  /** The first children have the values `vs`, and the rest decides the whole. */
  ghost predicate Progress(g: Graph, kids: seq<JSONValue>, open: set<JSONValue>, vs: seq<Value>) {
    && Closed(g) && AllIn(kids, g.Keys) && |vs| <= |kids| && AllIn(kids[|vs|..], g.Keys)
    && UnfoldAll(g, kids, open) == Prepend(vs, UnfoldAll(g, kids[|vs|..], open))
  }

  lemma {:induction false} NoneYet(g: Graph, o: JSONValue, open: set<JSONValue>)
    requires Closed(g) && o in g.Keys
    ensures Progress(g, Kids(g[o]), open, [])
  {
    var kids := Kids(g[o]);
    assert kids[0..] == kids;
    var u := UnfoldAll(g, kids, open);
    if u.AllDone? {
      assert [] + u.values == u.values;
    }
  }

  lemma {:induction false} NextKid(g: Graph, kids: seq<JSONValue>, open: set<JSONValue>, vs: seq<Value>)
    requires Progress(g, kids, open, vs) && |vs| < |kids|
    ensures kids[|vs|] in g.Keys
    ensures var u := Unfold(g, kids[|vs|], open);
      if u.Cyclical? then UnfoldAll(g, kids, open).SomeCyclical? else Progress(g, kids, open, vs + [u.value])
  {
    var i := |vs|;
    assert kids[i..][1..] == kids[i + 1..];
    var u := Unfold(g, kids[i], open);
    var w := UnfoldAll(g, kids[i + 1..], open);
    if u.Done? && w.AllDone? {
      assert vs + ([u.value] + w.values) == vs + [u.value] + w.values;
    }
  }

  lemma {:induction false} NoKidsLeft(g: Graph, kids: seq<JSONValue>, open: set<JSONValue>, vs: seq<Value>)
    requires Progress(g, kids, open, vs) && |vs| == |kids|
    ensures UnfoldAll(g, kids, open) == AllDone(vs)
  {
    assert vs + [] == vs;
  }

  /** What the guard and the children say about a container. */
  lemma {:induction false} UnfoldContainer(g: Graph, o: JSONValue, open: set<JSONValue>)
    requires Closed(g) && o in g.Keys
    ensures var kids := Kids(g[o]);
      Unfold(g, o, open) ==
      if kids == [] then Done(Rebuild(g[o], [])) else if o in open then Cyclical
      else match UnfoldAll(g, kids, open + {o}) case SomeCyclical => Cyclical case AllDone(vs) => Done(Rebuild(g[o], vs))
  {
  }

  // ------------------------------------------------------------------
  //  Printing lists
  // ------------------------------------------------------------------

  lemma {:induction false} PrintOneMore(vs: seq<Value>, v: Value)
    ensures PrintItems(AsIs, vs + [v]) == PrintItems(AsIs, vs) + (if vs == [] then [] else [44]) + Print(AsIs, v)
  {
    if vs == [] {
      assert [] + [v] == [v] && [] + [] + Print(AsIs, v) == Print(AsIs, v) + [];
    } else {
      assert (vs + [v])[1..] == vs[1..] + [v];
      PrintOneMore(vs[1..], v);
      if |vs| > 1 {
        var a, b := Print(AsIs, vs[0]), PrintItems(AsIs, vs[1..]);
        assert a + ([44] + (b + [44] + Print(AsIs, v))) == a + ([44] + b) + [44] + Print(AsIs, v);
      } else {
        assert vs[1..] == [];
        var a := Print(AsIs, vs[0]);
        assert a + ([44] + ([] + [] + Print(AsIs, v))) == a + [] + [44] + Print(AsIs, v);
      }
    }
  }

  lemma {:induction false} PrintOneMoreMember(ms: seq<Member>, m: Member)
    ensures PrintMembers(AsIs, ms + [m])
      == PrintMembers(AsIs, ms) + (if ms == [] then [] else [44]) + Quoted(AsIs, m.name) + [58] + Print(AsIs, m.value)
  {
    var p := Quoted(AsIs, m.name) + [58] + Print(AsIs, m.value);
    if ms == [] {
      assert [] + [m] == [m] && [] + [] + Quoted(AsIs, m.name) + [58] + Print(AsIs, m.value) == p + [];
    } else {
      assert (ms + [m])[1..] == ms[1..] + [m];
      PrintOneMoreMember(ms[1..], m);
      var a := Quoted(AsIs, ms[0].name) + [58] + Print(AsIs, ms[0].value);
      var b := PrintMembers(AsIs, ms[1..]);
      if |ms| > 1 {
        JoinMembers(a, b, Quoted(AsIs, m.name), Print(AsIs, m.value));
      } else {
        JoinTwo(a, Quoted(AsIs, m.name), Print(AsIs, m.value));
      }
    }
  }

  lemma {:induction false} JoinMembers(a: Text, b: Text, n: Text, v: Text)
    ensures a + ([44] + (b + [44] + n + [58] + v)) == a + ([44] + b) + [44] + n + [58] + v
  {
  }

  lemma {:induction false} JoinTwo(a: Text, n: Text, v: Text)
    ensures a + ([44] + ([] + [] + n + [58] + v)) == a + [] + [44] + n + [58] + v
  {
  }

  lemma {:induction false} ZipOneMore(ms: seq<Entry<JSONValue>>, i: nat, vs: seq<Value>, v: Value)
    requires i < |ms| && |vs| == i
    ensures Zip(ms[..i + 1], vs + [v]) == Zip(ms[..i], vs) + [Member(ms[i].name, v)]
    decreases i
  {
    if i == 0 {
      assert ms[..1] == [ms[0]] && vs + [v] == [v];
      assert [ms[0]][1..] == [] && [v][1..] == [];
    } else {
      assert ms[..i + 1][1..] == ms[1..][..i] && ms[..i][1..] == ms[1..][..i - 1] && (vs + [v])[1..] == vs[1..] + [v];
      ZipOneMore(ms[1..], i - 1, vs[1..], v);
    }
  }

  lemma {:induction false} PrintNone()
    ensures forall vs: seq<Value> :: Print(AsIs, VArr(vs)) == [91] + PrintItems(AsIs, vs) + [93]
    ensures forall ms: seq<Member> :: Print(AsIs, VObj(ms)) == [123] + PrintMembers(AsIs, ms) + [125]
    ensures [91] + PrintItems(AsIs, []) == [91]
    ensures forall ms: seq<Entry<JSONValue>> :: Zip(ms, []) == [] && [123] + PrintMembers(AsIs, Zip(ms, [])) == [123]
  {
  }

  lemma {:induction false} PrintNextItem(text: Text, vs: seq<Value>, v: Value)
    requires text == [91] + PrintItems(AsIs, vs)
    ensures (if vs == [] then text else text + [44]) + Print(AsIs, v) == [91] + PrintItems(AsIs, vs + [v])
  {
    PrintOneMore(vs, v);
    Join([91], PrintItems(AsIs, vs), [44], Print(AsIs, v));
    assert PrintItems(AsIs, vs) + [] == PrintItems(AsIs, vs);
  }

  lemma {:induction false} Join(a: Text, b: Text, c: Text, d: Text)
    ensures a + b + c + d == a + (b + c + d) && a + b + d == a + (b + d)
  {
    Assoc(a, b, c);
    Assoc(a, b + c, d);
    Assoc(a, b, d);
  }

  lemma {:induction false} PrintNextMember(text: Text, ms: seq<Entry<JSONValue>>, i: nat, vs: seq<Value>, v: Value)
    requires |vs| == i < |ms|
    requires text == [123] + PrintMembers(AsIs, Zip(ms[..i], vs))
    ensures (if i == 0 then text else text + [44]) + Quoted(AsIs, ms[i].name) + [58] + Print(AsIs, v)
      == [123] + PrintMembers(AsIs, Zip(ms[..i + 1], vs + [v]))
  {
    ZipOneMore(ms, i, vs, v);
    PrintOneMoreMember(Zip(ms[..i], vs), Member(ms[i].name, v));
    assert i > 0 ==> ms[..i] != [];
    var a := PrintMembers(AsIs, Zip(ms[..i], vs));
    var b := if i == 0 then [] else [44];
    assert i == 0 ==> text + b == text;
    Join5([123], a, b, Quoted(AsIs, ms[i].name), [58], Print(AsIs, v));
  }

  lemma {:induction false} Join5(p: Text, a: Text, b: Text, c: Text, d: Text, e: Text)
    ensures p + a + b + c + d + e == p + (a + b + c + d + e)
  {
    Assoc(p, a, b);
    Assoc(p, a + b, c);
    Assoc(p, a + b + c, d);
    Assoc(p, a + b + c + d, e);
  }

  // ------------------------------------------------------------------
  //  The objects
  // ------------------------------------------------------------------

  ghost function Snapshot(S: set<JSONValue>): Graph
    reads S`items, S`members
  {
    map o | o in S :: o.GetCell()
  }

  /** The containers being printed. */
  ghost function Open(S: set<JSONValue>): set<JSONValue>
    reads S`saving
  {
    set o | o in S && o.saving
  }

  class JSONValue {
    const kind: Kind
    const integer: int
    const str: Text
    var items: seq<JSONValue>
    /** In key order. */
    var members: seq<Entry<JSONValue>>
    var saving: bool

    constructor (kind: Kind, integer: int, str: Text, items: seq<JSONValue>, members: seq<Entry<JSONValue>>)
      ensures this.kind == kind && this.integer == integer && this.str == str
      ensures this.items == items && this.members == members && !saving
    {
      this.kind, this.integer, this.str, this.items, this.members, saving := kind, integer, str, items, members, false;
    }

    ghost function GetCell(): Cell
      reads `items, `members
    {
      match kind
      case KNull => Scalar(VNull)
      case KTrue => Scalar(VBool(true))
      case KFalse => Scalar(VBool(false))
      case KInt => Scalar(VInt(integer))
      case KString => Scalar(VStr(str))
      case KArray => Items(items)
      case KObject => Members(members)
    }

    /** Replaces an item, or adds one at the end. */
    method SetItem(idx: nat, value: JSONValue?) returns (r: Outcome)
      modifies `items
      ensures r == if kind != KArray then WrongType else if idx > |old(items)| then OutOfRange
                   else if value == null then NoValue else Changed
      ensures r != Changed ==> items == old(items)
      ensures r == Changed ==> |items| == (if idx == |old(items)| then |old(items)| + 1 else |old(items)|)
                               && forall i :: 0 <= i < |items| ==> items[i] == if i == idx then value else old(items)[i]
    {
      if kind != KArray {
        return WrongType;
      }
      if idx > |items| {
        return OutOfRange;
      }
      if value == null {
        return NoValue;
      }
      if idx == |items| {
        items := items + [value];
      } else {
        items := items[idx := value];
      }
      r := Changed;
    }

    /** Sets a member, or removes it when there is no value. */
    method SetMember(name: Text, value: JSONValue?) returns (r: Outcome)
      modifies `members
      ensures r == if kind != KObject then WrongType else if name == [] then EmptyName else Changed
      ensures r != Changed ==> members == old(members)
      ensures r == Changed && value != null ==> members == Put(old(members), name, value)
      ensures r == Changed && value == null ==> members == Erase(old(members), name)
    {
      if kind != KObject {
        return WrongType;
      }
      if name == [] {
        return EmptyName;
      }
      if value != null {
        members := Put(members, name, value);
      } else {
        members := Erase(members, name);
      }
      r := Changed;
    }

    /** Every container below `this` carries the flag while it is printed, and on both exits
        every flag is what it was. */
    method ToString(ghost S: set<JSONValue>) returns (r: Printed)
      requires this in S && Closed(Snapshot(S))
      modifies S`saving
      ensures Open(S) == old(Open(S))
      ensures r == Shown(Unfold(Snapshot(S), this, old(Open(S))))
      decreases |S - Open(S)|, 1
    {
      match kind
      case KNull => r := Printed(NULL_NAME);
      case KTrue => r := Printed(TRUE_NAME);
      case KFalse => r := Printed(FALSE_NAME);
      case KInt => r := Printed(Signed(integer));
      case KString =>
        var text := AppendString([], str);
        assert [] + Quoted(AsIs, str) == Quoted(AsIs, str);
        r := Printed(text);
      case KArray => r := ArrayToString(S);
      case KObject => r := ObjectToString(S);
    }

    /** The constructor of `saving_t`: it refuses a container that is being printed already. */
    method Mark(ghost S: set<JSONValue>) returns (ok: bool)
      requires this in S
      modifies `saving
      ensures ok <==> this !in old(Open(S))
      ensures Open(S) == if ok then old(Open(S)) + {this} else old(Open(S))
      ensures ok ==> |S - Open(S)| < |S - old(Open(S))|
    {
      ok := !saving;
      if ok {
        OneMoreOpen(S, Open(S), this);
        saving := true;
        assert Open(S) == old(Open(S)) + {this};
      }
    }

    /** Its destructor. */
    method Unmark(ghost S: set<JSONValue>, ghost open: set<JSONValue>)
      requires this !in open && Open(S) == open + {this}
      modifies `saving
      ensures Open(S) == open
    {
      saving := false;
      assert Open(S) == open;
    }

    method ArrayToString(ghost S: set<JSONValue>) returns (r: Printed)
      requires kind == KArray && this in S && Closed(Snapshot(S))
      modifies S`saving
      ensures Open(S) == old(Open(S))
      ensures r == Shown(Unfold(Snapshot(S), this, old(Open(S))))
      decreases |S - Open(S)|, 0
    {
      hide Unfold, UnfoldAll, PrintItems, PrintMembers, Print, Open, Closed, Progress, EntryValues;
      ghost var g, open := Snapshot(S), Open(S);
      ghost var inner := open + {this};
      UnfoldContainer(g, this, open);
      var text := [91];
      PrintNone();
      if |items| > 0 {
        var marked := Mark(S);
        if !marked {
          return CyclicalStructure;
        }
        ghost var vs: seq<Value> := [];
        NoneYet(g, this, inner);
        var i := 0;
        while i < |items|
          invariant i == |vs| <= |items| && Items(items) == g[this]
          invariant Snapshot(S) == g && Open(S) == inner
          invariant text == [91] + PrintItems(AsIs, vs)
          invariant Progress(g, items, inner, vs)
        {
          NextKid(g, items, inner, vs);
          if i > 0 {
            text := text + [44];
          }
          var item := items[i].ToString(S);
          if item.CyclicalStructure? {
            Unmark(S, open);
            return item;
          }
          ghost var v := Unfold(g, items[i], inner).value;
          PrintNextItem([91] + PrintItems(AsIs, vs), vs, v);
          text := text + item.text;
          vs := vs + [v];
          i := i + 1;
        }
        NoKidsLeft(g, items, inner, vs);
        Unmark(S, open);
      }
      text := text + [93];
      r := Printed(text);
    }

    method ObjectToString(ghost S: set<JSONValue>) returns (r: Printed)
      requires kind == KObject && this in S && Closed(Snapshot(S))
      modifies S`saving
      ensures Open(S) == old(Open(S))
      ensures r == Shown(Unfold(Snapshot(S), this, old(Open(S))))
      decreases |S - Open(S)|, 0
    {
      hide Unfold, UnfoldAll, PrintItems, PrintMembers, Print, Open, Closed, Zip, EntryValues;
      ghost var g, open := Snapshot(S), Open(S);
      UnfoldContainer(g, this, open);
      r := Printed([123]);
      PrintNone();
      if |members| > 0 {
        var marked := Mark(S);
        if !marked {
          return CyclicalStructure;
        }
        r := MembersToString(S);
        Unmark(S, open);
        if r.CyclicalStructure? {
          return;
        }
      }
      r := Printed(r.text + [125]);
    }

    /** The members, while the object is marked. */
    method MembersToString(ghost S: set<JSONValue>) returns (r: Printed)
      requires kind == KObject && this in S && Closed(Snapshot(S))
      modifies S`saving
      ensures Open(S) == old(Open(S)) && Closed(Snapshot(S)) && AllIn(EntryValues(members), Snapshot(S).Keys)
      ensures var u := UnfoldAll(Snapshot(S), EntryValues(members), Open(S));
        r == if u.AllDone? then Printed([123] + PrintMembers(AsIs, Zip(members, u.values))) else CyclicalStructure
      decreases |S - Open(S)|, 2
    {
      hide Unfold, UnfoldAll, PrintItems, PrintMembers, Print, Open, Closed, Progress, Zip, Quoted, EntryValues;
      ghost var g, open, ms := Snapshot(S), Open(S), members;
      ghost var kids := EntryValues(ms);
      ghost var vs: seq<Value> := [];
      NoneYet(g, this, open);
      PrintNone();
      var text := [123];
      var i := 0;
      while i < |members|
        invariant i == |vs| <= |ms| && members == ms
        invariant Snapshot(S) == g && Open(S) == open
        invariant text == [123] + PrintMembers(AsIs, Zip(ms[..i], vs))
        invariant Progress(g, kids, open, vs)
      {
        NextKid(g, kids, open, vs);
        text := AppendName(text, i, members[i].name);
        var item := members[i].value.ToString(S);
        if item.CyclicalStructure? {
          return item;
        }
        ghost var v := Unfold(g, kids[i], open).value;
        PrintNextMember([123] + PrintMembers(AsIs, Zip(ms[..i], vs)), ms, i, vs, v);
        text := text + item.text;
        vs := vs + [v];
        i := i + 1;
      }
      NoKidsLeft(g, kids, open, vs);
      assert ms[..i] == ms;
      r := Printed(text);
    }
  }

  /** What stands before the value of a member. */
  method AppendName(text: Text, i: nat, name: Text) returns (r: Text)
    ensures r == (if i == 0 then text else text + [44]) + Quoted(AsIs, name) + [58]
  {
    hide Quoted;
    r := text;
    if i > 0 {
      r := r + [44];
    }
    r := AppendString(r, name);
    r := r + [58];
  }

  /** The characters that need it are escaped, and quotes put around them. */
  method AppendString(result: Text, str: Text) returns (r: Text)
    ensures r == result + Quoted(AsIs, str)
  {
    hide EscapeChar;
    r := result + [QUOTE];
    var i := 0;
    assert str[0..] == str;
    while i < |str|
      invariant 0 <= i <= |str|
      invariant result + [QUOTE] + EscapeAll(AsIs, str) == r + EscapeAll(AsIs, str[i..])
    {
      assert str[i..][1..] == str[i + 1..];
      Assoc(r, EscapeChar(AsIs, str[i]), EscapeAll(AsIs, str[i + 1..]));
      r := r + EscapeChar(AsIs, str[i]);
      i := i + 1;
    }
    assert r + [] == r;
    Assoc(result, [QUOTE] + EscapeAll(AsIs, str), [QUOTE]);
    Assoc(result, [QUOTE], EscapeAll(AsIs, str));
    r := r + [QUOTE];
  }
}
