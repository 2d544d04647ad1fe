/** A JSON file: reading it, writing it with a header, and reading what was written. */
module JsonFile {
  import opened Text
  import opened LexerSpec
  import opened JsonText
  import opened JsonRoundTrip
  import opened JsonValues
  import opened Lexing
  import opened JsonGraph
  import opened JsonReader

  const BOM: int := 0xFEFF

  /** What `output()` answers; what was written before an exception stays written. */
  datatype Written = Written(text: Text) | NothingToWrite | Cyclic(text: Text)

  class JSON {
    var value: JSONValue?

    constructor ()
      ensures value == null
    {
      value := null;
    }

    /** A refused text clears the value and raises an exception; a number that is too big raises
        one before the value is touched. */
    method Parse(input: Text, letters: Letters) returns (r: Reading, ghost S: set<JSONValue>)
      modifies this
      ensures fresh(S)
      ensures var p := JsonText.Parse(letters, Normal(input));
        && Same(r, p)
        && (p.Read? ==> value == r.value && MadeOne(S, r.value, p.value))
        && (p.Rejected? ==> value == null)
        && (p.Raised? || p.Outside? ==> value == old(value))
    {
      hide Lex, ReadValue, MadeOne;
      var lexer := new Lexer(input, letters);
      var token := lexer.GetNextToken();
      r, S := ReadJsonValue(lexer, token);
      match r
      case Made(v) => value := v;
      case NullPointer => value := null;
      case _ =>
    }

    method Output(header: Text, toFile: bool, ghost S: set<JSONValue>) returns (w: Written)
      requires value != null ==> value in S && Closed(Snapshot(S))
      modifies S`saving
      ensures Open(S) == old(Open(S)) && value == old(value)
      ensures value == null ==> w == NothingToWrite
      ensures value != null ==>
        var front := (if toFile then [BOM] else []) + (if header == [] then [] else header + [NEWLINE]);
        w == match Unfold(Snapshot(S), value, old(Open(S)))
             case Done(v) => Written(front + Print(AsIs, v))
             case Cyclical => Cyclic(front)
    {
      hide Unfold, Print, Open, Closed;
      if value == null {
        return NothingToWrite;
      }
      var out := [];
      if toFile {
        out := [BOM];
      }
      if header != [] {
        Assoc(out, header, [NEWLINE]);
        out := out + header;
        out := out + [NEWLINE];
      }
      assert (if toFile then [BOM] else []) + [] == if toFile then [BOM] else [];
      var text := value.ToString(S);
      match text
      case Printed(t) => w := Written(out + t);
      case CyclicalStructure => w := Cyclic(out);
    }
  }

  // ------------------------------------------------------------------
  //  Reading what was written
  // ------------------------------------------------------------------

  /** A line that a comment can hold. */
  predicate IsLine(line: Text) {
    forall i :: 0 <= i < |line| ==> line[i] >= 0 && !IsLineTerminator(line[i])
  }

  /** A header: lines of comment. */
  function Comments(lines: seq<Text>): Text {
    if lines == [] then [] else [SLASH, SLASH] + lines[0] + [NEWLINE] + Comments(lines[1..])
  }

  lemma {:induction false} SkipToEnd(line: Text, rest: Text)
    requires IsLine(line)
    ensures SkipLine(line + [NEWLINE] + rest) == rest
  {
    var s := line + [NEWLINE] + rest;
    if line == [] {
      assert s[0] == NEWLINE && s[1..] == rest;
    } else {
      assert s[0] == line[0] && s[1..] == line[1..] + [NEWLINE] + rest;
      SkipToEnd(line[1..], rest);
    }
  }

  lemma {:induction false} LexComment(letters: Letters, s: Text)
    ensures Lex(letters, [SLASH, SLASH] + s) == Lex(letters, SkipLine(s))
  {
    var t := [SLASH, SLASH] + s;
    assert Rest(t) == [SLASH] + s && Rest(Rest(t)) == s;
  }

  /** Comments are as if they were not there. */
  lemma {:induction false} SkipComments(letters: Letters, lines: seq<Text>, rest: Text)
    requires forall i :: 0 <= i < |lines| ==> IsLine(lines[i])
    ensures Lex(letters, Comments(lines) + rest) == Lex(letters, rest)
  {
    hide Lex;
    if lines == [] {
      assert Comments(lines) + rest == rest;
    } else {
      var more := Comments(lines[1..]) + rest;
      var line := lines[0] + [NEWLINE] + more;
      Assoc([SLASH, SLASH] + lines[0] + [NEWLINE], Comments(lines[1..]), rest);
      Assoc([SLASH, SLASH] + lines[0], [NEWLINE], more);
      Assoc([SLASH, SLASH], lines[0], [NEWLINE] + more);
      Assoc(lines[0], [NEWLINE], more);
      assert Comments(lines) + rest == [SLASH, SLASH] + line;
      LexComment(letters, line);
      SkipToEnd(lines[0], more);
      SkipComments(letters, lines[1..], rest);
    }
  }

  lemma {:induction false} SkipBom(letters: Letters, s: Text)
    ensures Lex(letters, [BOM] + s) == Lex(letters, s)
  {
    assert Rest([BOM] + s) == s;
  }

  lemma {:induction false} NormalAlready(s: Text)
    requires RETURN !in s
    ensures Normal(s) == s
  {
    if s != [] {
      NormalAlready(s[1..]);
      assert [s[0]] + s[1..] == s;
    }
  }

  // ---- no carriage return is ever printed

  lemma {:induction false} HexHasNoReturn(n: nat, w: nat)
    ensures RETURN !in Hex(n, w)
    decreases n, w
  {
    if n > 0 || w > 0 {
      HexHasNoReturn(n / 16, if w == 0 then 0 else w - 1);
    }
  }

  lemma {:induction false} EscapedHasNoReturn(e: Escaper, s: Text)
    ensures RETURN !in EscapeAll(e, s)
  {
    if s != [] {
      HexHasNoReturn(s[0] % 0x1_0000_0000, 4);
      if s[0] >= 0 {
        HexHasNoReturn(s[0], 4);
      }
      EscapedHasNoReturn(e, s[1..]);
    }
  }

  lemma {:induction false} DecimalHasNoReturn(n: nat)
    ensures RETURN !in Decimal(n)
  {
    var s := Decimal(n);
    assert forall i :: 0 <= i < |s| ==> IsDigit(s[i]);
  }

  lemma {:induction false} PrintHasNoReturn(e: Escaper, v: Value)
    ensures RETURN !in Print(e, v)
    decreases v, 1
  {
    hide EscapeAll, Decimal;
    match v
    case VNull =>
    case VBool(_) =>
    case VInt(n) => if n < 0 { DecimalHasNoReturn(-n); } else { DecimalHasNoReturn(n); }
    case VStr(text) => EscapedHasNoReturn(e, text);
    case VArr(items) => ItemsHaveNoReturn(e, items);
    case VObj(members) => MembersHaveNoReturn(e, members);
  }

  lemma {:induction false} ItemsHaveNoReturn(e: Escaper, items: seq<Value>)
    ensures RETURN !in PrintItems(e, items)
    decreases items, 0
  {
    hide Print;
    if items != [] {
      PrintHasNoReturn(e, items[0]);
      ItemsHaveNoReturn(e, items[1..]);
    }
  }

  lemma {:induction false} MembersHaveNoReturn(e: Escaper, ms: seq<Member>)
    ensures RETURN !in PrintMembers(e, ms)
    decreases ms, 0
  {
    hide Print, EscapeAll;
    if ms != [] {
      EscapedHasNoReturn(e, ms[0].name);
      PrintHasNoReturn(e, ms[0].value);
      MembersHaveNoReturn(e, ms[1..]);
    }
  }

  lemma {:induction false} CommentsHaveNoReturn(lines: seq<Text>)
    requires forall i :: 0 <= i < |lines| ==> IsLine(lines[i])
    ensures RETURN !in Comments(lines)
  {
    if lines != [] {
      assert IsLine(lines[0]);
      CommentsHaveNoReturn(lines[1..]);
    }
  }

  /** A file written with a header of comments is read back as the value that was written. */
  lemma {:induction false} SavedFileIsReadBack(letters: Letters, lines: seq<Text>, v: Value)
    requires Supported(AsIs, v) && forall i :: 0 <= i < |lines| ==> IsLine(lines[i])
    ensures JsonText.Parse(letters, Normal([BOM] + Comments(lines) + Print(AsIs, v))) == Read(v, [])
  {
    hide Lex, Print, Comments, Supported, ReadValue;
    var text := Print(AsIs, v);
    PrintHasNoReturn(AsIs, v);
    CommentsHaveNoReturn(lines);
    NormalAlready([BOM] + Comments(lines) + text);
    Assoc([BOM], Comments(lines), text);
    SkipBom(letters, Comments(lines) + text);
    SkipComments(letters, lines, text);
    ReadBack(AsIs, letters, v, []);
    assert text + [] == text;
  }
}
