/** JSON values, their text, and reading them back: the functions the printer and the
    reader are proved against. */
module JsonText {
  import opened Text
  import opened LexerSpec

  /** A finite JSON value. Members are kept in key order, as in a std::map. */
  datatype Value =
    | VNull
    | VBool(b: bool)
    | VInt(n: int)
    | VStr(text: Text)
    | VArr(items: seq<Value>)
    | VObj(members: seq<Member>)

  datatype Member = Member(name: Text, value: Value)

  // ------------------------------------------------------------------
  //  Printing
  // ------------------------------------------------------------------

  /** Which escapes are written: those of `append_string()`, or those and the ones it lacks:
      backslash, U+2028 and U+2029. */
  datatype Escaper = AsIs | Corrected

  function EscapeChar(e: Escaper, c: int): (r: Text)
    ensures r != []
  {
    if c == 8 then [BACKSLASH, 98]
    else if c == 12 then [BACKSLASH, 102]
    else if c == 10 then [BACKSLASH, 110]
    else if c == 13 then [BACKSLASH, 114]
    else if c == 9 then [BACKSLASH, 116]
    else if c == QUOTE then [BACKSLASH, QUOTE]
    else if c < 0x20 then [BACKSLASH, 117] + Hex(c % 0x1_0000_0000, 4)
    else if e.Corrected? && c == BACKSLASH then [BACKSLASH, BACKSLASH]
    else if e.Corrected? && (c == LINE_SEPARATOR || c == PARAGRAPH_SEPARATOR) then [BACKSLASH, 117] + Hex(c, 4)
    else [c]
  }

  function EscapeAll(e: Escaper, s: Text): Text {
    if s == [] then [] else EscapeChar(e, s[0]) + EscapeAll(e, s[1..])
  }

  function Quoted(e: Escaper, s: Text): Text {
    [QUOTE] + EscapeAll(e, s) + [QUOTE]
  }

  function Print(e: Escaper, v: Value): Text
    decreases v, 1
  {
    match v
    case VNull => NULL_NAME
    case VBool(b) => if b then TRUE_NAME else FALSE_NAME
    case VInt(n) => Signed(n)
    case VStr(text) => Quoted(e, text)
    case VArr(items) => [91] + PrintItems(e, items) + [93]
    case VObj(members) => [123] + PrintMembers(e, members) + [125]
  }

  function PrintItems(e: Escaper, items: seq<Value>): Text
    decreases items, 0
  {
    if items == [] then []
    else Print(e, items[0]) + if |items| == 1 then [] else [44] + PrintItems(e, items[1..])
  }

  function PrintMembers(e: Escaper, ms: seq<Member>): Text
    decreases ms, 0
  {
    if ms == [] then []
    else Quoted(e, ms[0].name) + [58] + Print(e, ms[0].value) + if |ms| == 1 then [] else [44] + PrintMembers(e, ms[1..])
  }

  // ------------------------------------------------------------------
  //  Reading
  // ------------------------------------------------------------------

  datatype Parsed =
    | Read(value: Value, rest: Text)
    | Rejected    // a null pointer: an error was reported
    | Raised      // a number does not fit 64 bits: an exception
    | Outside     // a token that is not part of this model

  function Refuse(t: Token): Parsed {
    if t == Unmodelled then Outside else if t == TooBig then Raised else Rejected
  }

  predicate HasName(ms: seq<Member>, name: Text) {
    exists i :: 0 <= i < |ms| && ms[i].name == name
  }

  /** The insertion of a new key in a std::map. */
  function Insert(ms: seq<Member>, m: Member): seq<Member> {
    if ms == [] || Less(m.name, ms[0].name) then [m] + ms else [ms[0]] + Insert(ms[1..], m)
  }

  /** `read_json_value()`; `t` is read already. */
  function ReadValue(letters: Letters, t: Token, s: Text): (r: Parsed)
    ensures r.Read? ==> |r.rest| <= |s|
    decreases |s| + (if t == EndOfInput then 0 else 1), 1
  {
    match t
    case Null => Read(VNull, s)
    case True => Read(VBool(true), s)
    case False => Read(VBool(false), s)
    case Str(text) => Read(VStr(text), s)
    case Int(n) => Read(VInt(n), s)
    case Add =>
      var (u, s') := Lex(letters, s);
      if u.Int? then Read(VInt(u.value), s') else Refuse(u)
    case Subtract =>
      var (u, s') := Lex(letters, s);
      if u.Int? then Read(VInt(Wrap64(-u.value)), s') else Refuse(u)
    case OpenSquare =>
      var (u, s') := Lex(letters, s);
      if u == CloseSquare then Read(VArr([]), s') else ReadItems(letters, u, s', [])
    case OpenCurly =>
      var (u, s') := Lex(letters, s);
      if u == CloseCurly then Read(VObj([]), s') else ReadMembers(letters, u, s', [])
    case _ => Refuse(t)
  }

  function ReadItems(letters: Letters, t: Token, s: Text, items: seq<Value>): (r: Parsed)
    ensures r.Read? ==> |r.rest| <= |s|
    decreases |s| + (if t == EndOfInput then 0 else 1), 2
  {
    var v := ReadValue(letters, t, s);
    if !v.Read? then v
    else
      var (u, s') := Lex(letters, v.rest);
      if u == CloseSquare then Read(VArr(items + [v.value]), s')
      else if u != Comma then Refuse(u)
      else
        var (w, s'') := Lex(letters, s');
        ReadItems(letters, w, s'', items + [v.value])
  }

  /** A name that occurs twice keeps its first value. */
  function ReadMembers(letters: Letters, t: Token, s: Text, ms: seq<Member>): (r: Parsed)
    ensures r.Read? ==> |r.rest| <= |s|
    decreases |s| + (if t == EndOfInput then 0 else 1), 0
  {
    if !t.Str? then Refuse(t)
    else
      var (colon, s1) := Lex(letters, s);
      if colon != Colon then Refuse(colon)
      else
        var (u, s2) := Lex(letters, s1);
        var v := ReadValue(letters, u, s2);
        if !v.Read? then v
        else
          var more := if HasName(ms, t.text) then ms else Insert(ms, Member(t.text, v.value));
          var (w, s3) := Lex(letters, v.rest);
          if w == CloseCurly then Read(VObj(more), s3)
          else if w != Comma then Refuse(w)
          else
            var (x, s4) := Lex(letters, s3);
            ReadMembers(letters, x, s4, more)
  }

  /** `JSON::parse()` up to the end of the value. */
  function Parse(letters: Letters, s: Text): Parsed {
    var (t, s') := Lex(letters, s);
    ReadValue(letters, t, s')
  }
}
