/** Strings as sequences of character codes, the way the compiler's String class keeps them. */
module Text {

  /** Any 32 bit value may occur; Unicode characters are the codes below 0x110000. */
  type Text = seq<int>

  predicate IsUnicode(c: int) {
    0 <= c < 0x110000
  }

  lemma {:induction false} Assoc(a: Text, b: Text, c: Text)
    ensures (a + b) + c == a + (b + c)
  {
  }

  /** The order of std::map keys. */
  predicate Less(a: Text, b: Text) {
    b != [] && (a == [] || a[0] < b[0] || (a[0] == b[0] && Less(a[1..], b[1..])))
  }

  lemma {:induction false} LessIrreflexive(a: Text)
    ensures !Less(a, a)
  {
    if a != [] {
      LessIrreflexive(a[1..]);
    }
  }

  lemma {:induction false} LessTransitive(a: Text, b: Text, c: Text)
    requires Less(a, b) && Less(b, c)
    ensures Less(a, c)
  {
    if a != [] && a[0] == b[0] == c[0] {
      LessTransitive(a[1..], b[1..], c[1..]);
    }
  }

  lemma {:induction false} LessTotal(a: Text, b: Text)
    ensures Less(a, b) || a == b || Less(b, a)
  {
    if a != [] && b != [] && a[0] == b[0] {
      LessTotal(a[1..], b[1..]);
      assert a == [a[0]] + a[1..] && b == [b[0]] + b[1..];
    }
  }

  /** The codes of ASCII characters. */
  function Codes(s: string): (t: Text)
    ensures |t| == |s| && forall i :: 0 <= i < |s| ==> t[i] == s[i] as int
  {
    if s == [] then [] else [s[0] as int] + Codes(s[1..])
  }

  lemma {:induction false} Spelled(a: Text, s: string)
    requires |a| == |s| && forall i :: 0 <= i < |s| ==> a[i] == s[i] as int
    ensures a == Codes(s)
  {
  }

  // ------------------------------------------------------------------
  //  Numbers
  // ------------------------------------------------------------------

  const ZERO: int := 48
  const LOWER_A: int := 97
  const MINUS: int := 45

  predicate IsDigit(c: int) {
    48 <= c <= 57
  }

  /** The decimal digits of a number, without leading zeros. */
  function Decimal(n: nat): (s: Text)
    ensures s != [] && forall i :: 0 <= i < |s| ==> IsDigit(s[i])
    ensures s[0] == ZERO <==> n == 0
  {
    if n < 10 then [ZERO + n] else Decimal(n / 10) + [ZERO + n % 10]
  }

  /** What std::to_string() prints. */
  function Signed(n: int): Text {
    if n < 0 then [MINUS] + Decimal(-n) else Decimal(n)
  }

  /** The number a run of digits denotes. */
  function Number(s: Text): (n: nat)
    requires forall i :: 0 <= i < |s| ==> IsDigit(s[i])
  {
    if s == [] then 0
    else
      assert IsDigit(s[|s| - 1]);
      Number(s[..|s| - 1]) * 10 + (s[|s| - 1] - ZERO)
  }

  /** One more digit. */
  lemma {:induction false} NumberGrows(s: Text, c: int)
    requires (forall i :: 0 <= i < |s| ==> IsDigit(s[i])) && IsDigit(c)
    ensures Number(s + [c]) == 10 * Number(s) + (c - 48) && Number([]) == 0
  {
    assert (s + [c])[..|s|] == s;
  }

  lemma {:induction false} NumberOfDecimal(n: nat)
    ensures Number(Decimal(n)) == n
  {
    var s := Decimal(n);
    if n < 10 {
      assert s[..0] == [];
    } else {
      assert s[..|s| - 1] == Decimal(n / 10);
      NumberOfDecimal(n / 10);
    }
  }

  /** A 64 bit two's complement value. */
  function Wrap64(n: int): (w: int)
    ensures IsInt64(w)
  {
    var u := n % 0x1_0000_0000_0000_0000;
    if u < 0x8000_0000_0000_0000 then u else u - 0x1_0000_0000_0000_0000
  }

  predicate IsInt64(n: int) {
    -0x8000_0000_0000_0000 <= n < 0x8000_0000_0000_0000
  }

  /** A lower case hexadecimal digit. */
  function HexDigit(d: nat): int
    requires d < 16
  {
    if d < 10 then ZERO + d else LOWER_A + d - 10
  }

  /** The hexadecimal digits of a number, at least `width` of them. */
  function Hex(n: nat, width: nat): Text
    decreases n, width
  {
    if n == 0 && width == 0 then []
    else Hex(n / 16, if width == 0 then 0 else width - 1) + [HexDigit(n % 16)]
  }
}
