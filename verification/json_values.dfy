/** Every printed value is read back as itself, whatever delimiter follows it. */
module JsonValues {
  import opened Text
  import opened LexerSpec
  import opened JsonText
  import opened JsonRoundTrip

  /** Members in key order, without duplicates, as a std::map holds them. */
  predicate Sorted(ms: seq<Member>) {
    forall i, j :: 0 <= i < j < |ms| ==> Less(ms[i].name, ms[j].name)
  }

  /** 64 bit integers, strings of safe characters and ordered members, at every depth. */
  predicate Supported(e: Escaper, v: Value) {
    match v
    case VNull => true
    case VBool(_) => true
    case VInt(n) => IsInt64(n)
    case VStr(text) => AllSafe(e, text)
    case VArr(items) => forall i :: 0 <= i < |items| ==> Supported(e, items[i])
    case VObj(ms) => Sorted(ms) && forall i :: 0 <= i < |ms| ==> AllSafe(e, ms[i].name) && Supported(e, ms[i].value)
  }

  /** A delimiter: the end of the text, or a character that cannot continue a name or a number. */
  predicate Delim(letters: Letters, rest: Text) {
    rest == [] || (0 < rest[0] < 0x110000 && !IsLetter(letters, rest[0]) && !IsDigit(rest[0]) && rest[0] != 46
                   && rest[0] != BACKSLASH)
  }

  // ------------------------------------------------------------------
  //  Tokens
  // ------------------------------------------------------------------

  lemma {:induction false} Stays(letters: Letters, rest: Text)
    requires Delim(letters, rest) || (rest != [] && 0 < rest[0] < 0x110000)
    ensures Unread(Peek(rest), Rest(rest)) == rest
  {
    if rest != [] {
      assert [rest[0]] + rest[1..] == rest;
    }
  }

  lemma {:induction false} LexQuoted(e: Escaper, letters: Letters, s: Text, rest: Text)
    requires AllSafe(e, s)
    ensures Lex(letters, Quoted(e, s) + rest) == (Str(s), rest)
  {
    var t := Tail(e, s, rest);
    assert Quoted(e, s) + rest == [QUOTE] + t;
    assert ([QUOTE] + t)[1..] == t;
    ReadSafe(e, s, rest);
  }

  lemma {:induction false} LexBracket(letters: Letters, c: int, rest: Text)
    requires c == 91 || c == 93 || c == 123 || c == 125 || c == 44
    ensures Lex(letters, [c] + rest) == (Single(c), rest)
  {
    assert ([c] + rest)[1..] == rest;
  }

  lemma {:induction false} LexColon(letters: Letters, rest: Text)
    requires rest != [] && 0 < rest[0] < 0x110000 && rest[0] != 58 && rest[0] != 61
    ensures Lex(letters, [58] + rest) == (Colon, rest)
  {
    assert ([58] + rest)[1..] == rest;
    assert [rest[0]] + rest[1..] == rest;
  }

  lemma {:induction false} LexMinus(letters: Letters, rest: Text)
    requires rest != [] && IsDigit(rest[0])
    ensures Lex(letters, [MINUS] + rest) == (Subtract, rest)
  {
    hide ReadName, ReadNumber, ReadString, SkipLine, SkipBlock;
    assert Rest([MINUS] + rest) == rest;
    Stays(letters, rest);
  }

  predicate IsName(name: Text) {
    forall i :: 0 <= i < |name| ==> 97 <= name[i] <= 122
  }

  lemma {:induction false} ReadNameStops(letters: Letters, rest: Text)
    requires Delim(letters, rest)
    ensures ReadName(letters, Peek(rest), Rest(rest)) == ([], rest)
  {
    Stays(letters, rest);
  }

  lemma {:induction false} ReadWholeName(letters: Letters, c: int, name: Text, rest: Text)
    requires 97 <= c <= 122 && IsName(name) && Delim(letters, rest)
    ensures ReadName(letters, c, name + rest) == ([c] + name, rest)
    decreases |name|
  {
    var t := name + rest;
    if name == [] {
      assert t == rest;
      ReadNameStops(letters, rest);
    } else {
      assert t[1..] == name[1..] + rest;
      ReadWholeName(letters, name[0], name[1..], rest);
      assert [name[0]] + name[1..] == name;
    }
  }

  lemma {:induction false} LexName(letters: Letters, name: Text, rest: Text)
    requires name != [] && IsName(name) && Delim(letters, rest)
    ensures Lex(letters, name + rest) == (Keyword(name), rest)
  {
    assert name + rest == [name[0]] + (name[1..] + rest);
    LexLetter(letters, name[0], name[1..] + rest);
    ReadWholeName(letters, name[0], name[1..], rest);
    assert [name[0]] + name[1..] == name;
  }

  lemma {:induction false} LexLetter(letters: Letters, c: int, t: Text)
    requires 97 <= c <= 122 && ReadName(letters, c, t).0 != []
    ensures var (name, u) := ReadName(letters, c, t);
      Lex(letters, [c] + t) == (Keyword(name), u)
  {
    assert ([c] + t)[1..] == t;
  }

  lemma {:induction false} LexDigit(letters: Letters, c: int, t: Text)
    requires IsDigit(c)
    ensures Lex(letters, [c] + t) == ReadNumber(letters, c, t)
  {
    var s := [c] + t;
    assert Rest(s) == t;
    assert !IsWhiteSpace(c) && !IsLineTerminator(c) && !IsInvalid(c) && !IsLetter(letters, c) && c != BACKSLASH;
  }

  predicate AllDigits(s: Text) {
    forall i :: 0 <= i < |s| ==> IsDigit(s[i])
  }

  lemma {:induction false} DigitsStop(letters: Letters, s: Text, rest: Text)
    requires AllDigits(s) && Delim(letters, rest)
    ensures Digits(s + rest) == s && (s + rest)[|s|..] == rest
  {
    if s == [] {
      assert s + rest == rest;
    } else {
      assert (s + rest)[1..] == s[1..] + rest;
      DigitsStop(letters, s[1..], rest);
      assert [s[0]] + s[1..] == s;
    }
  }

  lemma {:induction false} ReadDecimal(letters: Letters, s: Text, rest: Text)
    requires s != [] && AllDigits(s) && (s[0] == ZERO ==> |s| == 1) && Delim(letters, rest)
    requires Number(s) < 0x1_0000_0000_0000_0000
    ensures ReadNumber(letters, s[0], s[1..] + rest) == (Int(Wrap64(Number(s))), rest)
  {
    DigitsStop(letters, s[1..], rest);
    Stays(letters, rest);
    assert [s[0]] + s[1..] == s;
    if s[0] == ZERO {
      assert s[1..] + rest == rest && (s[1..] + rest)[0..] == rest;
      assert [s[0]] + [] == s;
    }
  }

  lemma {:induction false} LexDecimal(letters: Letters, n: nat, rest: Text)
    requires n < 0x1_0000_0000_0000_0000 && Delim(letters, rest)
    ensures Lex(letters, Decimal(n) + rest) == (Int(Wrap64(n)), rest)
  {
    hide Lex, ReadNumber;
    var s := Decimal(n);
    assert AllDigits(s);
    NumberOfDecimal(n);
    assert s + rest == [s[0]] + (s[1..] + rest);
    ReadDecimal(letters, s, rest);
    LexDigit(letters, s[0], s[1..] + rest);
  }

  // ------------------------------------------------------------------
  //  Values
  // ------------------------------------------------------------------

  lemma {:induction false} ReadToken(letters: Letters, s: Text, t: Token, rest: Text)
    requires Lex(letters, s) == (t, rest) && (t.Int? || t.Null? || t.True? || t.False? || t.Str?)
    ensures Parse(letters, s) == ReadValue(letters, t, rest)
    ensures t.Int? ==> ReadValue(letters, t, rest) == Read(VInt(t.value), rest)
    ensures t.Str? ==> ReadValue(letters, t, rest) == Read(VStr(t.text), rest)
  {
  }

  lemma {:induction false} ReadNegative(letters: Letters, s: Text, t: Text, n: int, rest: Text)
    requires Lex(letters, s) == (Subtract, t) && Lex(letters, t) == (Int(n), rest)
    ensures Parse(letters, s) == Read(VInt(Wrap64(-n)), rest)
  {
    hide Lex;
  }

  /** The least value is its own negation, on 64 bits. */
  lemma {:induction false} NegateTwice(n: int)
    requires IsInt64(n)
    ensures Wrap64(n) == n && Wrap64(-Wrap64(-n)) == n
  {
  }

  lemma {:induction false} ReadInt(letters: Letters, n: int, rest: Text)
    requires IsInt64(n) && Delim(letters, rest)
    ensures Parse(letters, Signed(n) + rest) == Read(VInt(n), rest)
  {
    hide Lex, Wrap64, Decimal;
    NegateTwice(n);
    if n >= 0 {
      LexDecimal(letters, n, rest);
      ReadToken(letters, Decimal(n) + rest, Int(n), rest);
    } else {
      var s := Decimal(-n);
      Assoc([MINUS], s, rest);
      LexMinus(letters, s + rest);
      LexDecimal(letters, -n, rest);
      ReadNegative(letters, [MINUS] + (s + rest), s + rest, Wrap64(-n), rest);
    }
  }

  lemma {:induction false} ReadConstant(letters: Letters, v: Value, name: Text, rest: Text)
    requires Delim(letters, rest)
    requires (v, name) == (VNull, NULL_NAME) || (v, name) == (VBool(true), TRUE_NAME) || (v, name) == (VBool(false), FALSE_NAME)
    ensures Parse(letters, name + rest) == Read(v, rest)
  {
    hide Lex;
    LexName(letters, name, rest);
    assert TRUE_NAME[0] != NULL_NAME[0] && FALSE_NAME[0] != NULL_NAME[0] && FALSE_NAME[0] != TRUE_NAME[0];
  }

  /** What follows the first item. */
  function AfterItem(e: Escaper, more: seq<Value>, rest: Text): Text {
    if more == [] then [93] + rest else [44] + (PrintItems(e, more) + ([93] + rest))
  }

  lemma {:induction false} ItemsStep(e: Escaper, items: seq<Value>, rest: Text)
    requires items != []
    ensures PrintItems(e, items) + ([93] + rest) == Print(e, items[0]) + AfterItem(e, items[1..], rest)
  {
    var first, more := Print(e, items[0]), items[1..];
    if more == [] {
      assert first + [] == first;
    } else {
      Assoc(first, [44] + PrintItems(e, more), [93] + rest);
      Assoc([44], PrintItems(e, more), [93] + rest);
    }
  }

  /** The items read from a text that begins with an item. */
  function ItemsAt(letters: Letters, s: Text, acc: seq<Value>): Parsed {
    var (t, u) := Lex(letters, s);
    ReadItems(letters, t, u, acc)
  }

  lemma {:induction false} LastItem(letters: Letters, s: Text, acc: seq<Value>, v: Value, u: Text, rest: Text)
    requires Parse(letters, s) == Read(v, u) && Lex(letters, u) == (CloseSquare, rest)
    ensures ItemsAt(letters, s, acc) == Read(VArr(acc + [v]), rest)
  {
  }

  lemma {:induction false} OneItem(letters: Letters, s: Text, acc: seq<Value>, v: Value, u: Text, x: Text)
    requires Parse(letters, s) == Read(v, u) && Lex(letters, u) == (Comma, x)
    ensures ItemsAt(letters, s, acc) == ItemsAt(letters, x, acc + [v])
  {
  }

  lemma {:induction false} AfterItemDelimits(e: Escaper, letters: Letters, more: seq<Value>, rest: Text)
    ensures Delim(letters, AfterItem(e, more, rest))
    ensures Lex(letters, AfterItem(e, more, rest))
      == if more == [] then (CloseSquare, rest) else (Comma, PrintItems(e, more) + ([93] + rest))
  {
    LexBracket(letters, if more == [] then 93 else 44, if more == [] then rest else PrintItems(e, more) + ([93] + rest));
  }

  predicate AllItems(e: Escaper, items: seq<Value>) {
    forall i :: 0 <= i < |items| ==> Supported(e, items[i])
  }

  lemma {:induction false} FirstItem(e: Escaper, items: seq<Value>, acc: seq<Value>)
    requires items != [] && AllItems(e, items)
    ensures Supported(e, items[0]) && AllItems(e, items[1..]) && acc + [items[0]] + items[1..] == acc + items
    ensures items[1..] == [] ==> acc + [items[0]] == acc + items
  {
  }

  lemma {:induction false} ReadBackItems(e: Escaper, letters: Letters, items: seq<Value>, acc: seq<Value>, rest: Text)
    requires items != [] && AllItems(e, items)
    ensures ItemsAt(letters, PrintItems(e, items) + ([93] + rest), acc) == Read(VArr(acc + items), rest)
    decreases items, 0
  {
    hide Lex, Parse, ItemsAt, Print, Supported;
    var more := items[1..];
    var after := AfterItem(e, more, rest);
    AfterItemDelimits(e, letters, more, rest);
    ItemsStep(e, items, rest);
    FirstItem(e, items, acc);
    ReadBack(e, letters, items[0], after);
    var s := Print(e, items[0]) + after;
    if more == [] {
      LastItem(letters, s, acc, items[0], after, rest);
    } else {
      OneItem(letters, s, acc, items[0], after, PrintItems(e, more) + ([93] + rest));
      ReadBackItems(e, letters, more, acc + [items[0]], rest);
    }
  }

  lemma {:induction false} InsertLast(ms: seq<Member>, m: Member)
    requires forall i :: 0 <= i < |ms| ==> Less(ms[i].name, m.name)
    ensures Insert(ms, m) == ms + [m] && !HasName(ms, m.name)
  {
    if ms != [] {
      NotBelow(m.name, ms[0].name);
      InsertLast(ms[1..], m);
      assert [ms[0]] + (ms[1..] + [m]) == ms + [m];
      assert forall i :: 1 <= i < |ms| ==> ms[i] == ms[1..][i - 1];
    }
  }

  lemma {:induction false} NotBelow(a: Text, b: Text)
    requires Less(b, a)
    ensures !Less(a, b) && a != b
  {
    LessIrreflexive(a);
    if Less(a, b) {
      LessTransitive(a, b, a);
    }
  }

  function MembersAt(letters: Letters, s: Text, acc: seq<Member>): Parsed {
    var (t, u) := Lex(letters, s);
    ReadMembers(letters, t, u, acc)
  }

  /** The text `s` of a member, with its name and value; the name is new. */
  ghost predicate IsMember(letters: Letters, s: Text, m: Member, after: Text) {
    exists t, u :: Lex(letters, s) == (Str(m.name), t) && Lex(letters, t) == (Colon, u) && Parse(letters, u) == Read(m.value, after)
  }

  lemma {:induction false} LastMember(letters: Letters, s: Text, acc: seq<Member>, m: Member, after: Text, rest: Text)
    requires IsMember(letters, s, m, after) && Lex(letters, after) == (CloseCurly, rest)
    requires !HasName(acc, m.name) && Insert(acc, m) == acc + [m]
    ensures MembersAt(letters, s, acc) == Read(VObj(acc + [m]), rest)
  {
  }

  lemma {:induction false} OneMember(letters: Letters, s: Text, acc: seq<Member>, m: Member, after: Text, x: Text)
    requires IsMember(letters, s, m, after) && Lex(letters, after) == (Comma, x)
    requires !HasName(acc, m.name) && Insert(acc, m) == acc + [m]
    ensures MembersAt(letters, s, acc) == MembersAt(letters, x, acc + [m])
  {
  }

  /** What follows the first member. */
  function After(e: Escaper, more: seq<Member>, rest: Text): Text {
    if more == [] then [125] + rest else [44] + (PrintMembers(e, more) + ([125] + rest))
  }

  lemma {:induction false} MembersStep(e: Escaper, ms: seq<Member>, rest: Text)
    requires ms != []
    ensures PrintMembers(e, ms) + ([125] + rest)
      == Quoted(e, ms[0].name) + ([58] + (Print(e, ms[0].value) + After(e, ms[1..], rest)))
  {
    var a, b := Quoted(e, ms[0].name), Print(e, ms[0].value);
    var c := if |ms| == 1 then [] else [44] + PrintMembers(e, ms[1..]);
    var d := [125] + rest;
    assert c + d == After(e, ms[1..], rest) by {
      if |ms| == 1 {
        assert c + d == d;
      } else {
        Assoc([44], PrintMembers(e, ms[1..]), d);
      }
    }
    Regroup(a, b, c, d);
  }

  lemma {:induction false} Regroup(a: Text, b: Text, c: Text, d: Text)
    ensures a + [58] + b + c + d == a + ([58] + (b + (c + d)))
  {
    Assoc(a + [58] + b, c, d);
    Assoc(a + [58], b, c + d);
    Assoc(a, [58], b + (c + d));
  }

  lemma {:induction false} StartsAValue(e: Escaper, v: Value, rest: Text)
    ensures Print(e, v) != []
    ensures var c := Print(e, v)[0]; 0 < c < 0x110000 && c != 58 && c != 61
  {
  }

  lemma {:induction false} AfterDelimits(e: Escaper, letters: Letters, more: seq<Member>, rest: Text)
    ensures Delim(letters, After(e, more, rest))
    ensures Lex(letters, After(e, more, rest))
      == if more == [] then (CloseCurly, rest) else (Comma, PrintMembers(e, more) + ([125] + rest))
  {
    LexBracket(letters, if more == [] then 125 else 44, if more == [] then rest else PrintMembers(e, more) + ([125] + rest));
  }

  /** The name and the value of one member. */
  lemma {:induction false} ReadMember(e: Escaper, letters: Letters, m: Member, after: Text)
    requires AllSafe(e, m.name) && Supported(e, m.value) && Delim(letters, after)
    ensures IsMember(letters, Quoted(e, m.name) + ([58] + (Print(e, m.value) + after)), m, after)
    decreases m, 2
  {
    StartsAValue(e, m.value, after);
    var v := Print(e, m.value) + after;
    LexQuoted(e, letters, m.name, [58] + v);
    LexColon(letters, v);
    ReadBack(e, letters, m.value, after);
    IsAMember(letters, Quoted(e, m.name) + ([58] + v), [58] + v, v, m, after);
  }

  lemma {:induction false} IsAMember(letters: Letters, s: Text, t: Text, u: Text, m: Member, after: Text)
    requires Lex(letters, s) == (Str(m.name), t) && Lex(letters, t) == (Colon, u) && Parse(letters, u) == Read(m.value, after)
    ensures IsMember(letters, s, m, after)
  {
  }

  predicate AllSupported(e: Escaper, ms: seq<Member>) {
    Sorted(ms) && forall i :: 0 <= i < |ms| ==> AllSafe(e, ms[i].name) && Supported(e, ms[i].value)
  }

  lemma {:induction false} AppendInOrder(acc: seq<Member>, ms: seq<Member>)
    requires ms != [] && Sorted(acc + ms)
    ensures Insert(acc, ms[0]) == acc + [ms[0]] && !HasName(acc, ms[0].name)
    ensures acc + [ms[0]] + ms[1..] == acc + ms && Sorted(ms[1..])
  {
    assert forall i :: 0 <= i < |acc| ==> (acc + ms)[i] == acc[i];
    assert (acc + ms)[|acc|] == ms[0];
    InsertLast(acc, ms[0]);
    assert forall i :: 0 <= i < |ms| - 1 ==> ms[1..][i] == (acc + ms)[|acc| + 1 + i];
  }

  lemma {:induction false} ReadBackMembers(e: Escaper, letters: Letters, ms: seq<Member>, acc: seq<Member>, rest: Text)
    requires ms != [] && Sorted(acc + ms) && AllSupported(e, ms)
    ensures MembersAt(letters, PrintMembers(e, ms) + ([125] + rest), acc) == Read(VObj(acc + ms), rest)
    decreases ms, 0
  {
    hide Lex, Parse, MembersAt, Print, Supported, Insert, Less;
    var m, more := ms[0], ms[1..];
    var after := After(e, more, rest);
    AfterDelimits(e, letters, more, rest);
    MembersStep(e, ms, rest);
    ReadMember(e, letters, m, after);
    AppendInOrder(acc, ms);
    var s := Quoted(e, m.name) + ([58] + (Print(e, m.value) + after));
    if more == [] {
      LastMember(letters, s, acc, m, after, rest);
      assert ms == [m];
    } else {
      OneMember(letters, s, acc, m, after, PrintMembers(e, more) + ([125] + rest));
      ReadBackMembers(e, letters, more, acc + [m], rest);
    }
  }

  lemma {:induction false} OpenArray(letters: Letters, s: Text, t: Text)
    requires Lex(letters, s) == (OpenSquare, t)
    ensures Lex(letters, t).0 == CloseSquare ==> Parse(letters, s) == Read(VArr([]), Lex(letters, t).1)
    ensures ItemsAt(letters, t, []).Read? ==> Parse(letters, s) == ItemsAt(letters, t, [])
  {
    assert ReadItems(letters, CloseSquare, Lex(letters, t).1, []) == Rejected;
  }

  lemma {:induction false} OpenObject(letters: Letters, s: Text, t: Text)
    requires Lex(letters, s) == (OpenCurly, t)
    ensures Lex(letters, t).0 == CloseCurly ==> Parse(letters, s) == Read(VObj([]), Lex(letters, t).1)
    ensures MembersAt(letters, t, []).Read? ==> Parse(letters, s) == MembersAt(letters, t, [])
  {
  }

  lemma {:induction false} ReadArray(e: Escaper, letters: Letters, items: seq<Value>, rest: Text)
    requires forall i :: 0 <= i < |items| ==> Supported(e, items[i])
    ensures Parse(letters, Print(e, VArr(items)) + rest) == Read(VArr(items), rest)
    decreases items, 1
  {
    hide Lex, Parse, ItemsAt;
    var s := PrintItems(e, items) + ([93] + rest);
    Assoc([91] + PrintItems(e, items), [93], rest);
    Assoc([91], PrintItems(e, items), [93] + rest);
    LexBracket(letters, 91, s);
    OpenArray(letters, [91] + s, s);
    if items == [] {
      assert s == [93] + rest;
      LexBracket(letters, 93, rest);
    } else {
      ReadBackItems(e, letters, items, [], rest);
      assert [] + items == items;
    }
  }

  lemma {:induction false} ReadObject(e: Escaper, letters: Letters, ms: seq<Member>, rest: Text)
    requires AllSupported(e, ms)
    ensures Parse(letters, Print(e, VObj(ms)) + rest) == Read(VObj(ms), rest)
    decreases ms, 1
  {
    hide Lex, Parse, MembersAt;
    var s := PrintMembers(e, ms) + ([125] + rest);
    Assoc([123] + PrintMembers(e, ms), [125], rest);
    Assoc([123], PrintMembers(e, ms), [125] + rest);
    LexBracket(letters, 123, s);
    OpenObject(letters, [123] + s, s);
    if ms == [] {
      assert s == [125] + rest;
      LexBracket(letters, 125, rest);
    } else {
      assert [] + ms == ms;
      ReadBackMembers(e, letters, ms, [], rest);
    }
  }

  /** Parsing the text of a value gives the value back and leaves exactly what followed it. */
  lemma {:induction false} ReadBack(e: Escaper, letters: Letters, v: Value, rest: Text)
    requires Supported(e, v) && Delim(letters, rest)
    ensures Parse(letters, Print(e, v) + rest) == Read(v, rest)
    decreases v, 1
  {
    hide Lex, Parse;
    match v
    case VNull => ReadConstant(letters, v, NULL_NAME, rest);
    case VBool(b) => ReadConstant(letters, v, if b then TRUE_NAME else FALSE_NAME, rest);
    case VInt(n) => ReadInt(letters, n, rest);
    case VStr(text) =>
      LexQuoted(e, letters, text, rest);
      ReadToken(letters, Quoted(e, text) + rest, Str(text), rest);
    case VArr(items) => ReadArray(e, letters, items, rest);
    case VObj(ms) => ReadObject(e, letters, ms, rest);
  }
}
