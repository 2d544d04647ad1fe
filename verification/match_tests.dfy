/** What an entry of a match table asks of a node, in the fields of the node. */
module MatchTests {
  import opened NodeTree
  import opened OptimizerMatch

  /** Whether bit `i` is one. */
  predicate Bit(n: nat, i: nat)
    decreases i
  {
    if i == 0 then n % 2 == 1 else Bit(n / 2, i - 1)
  }

  /** Bit by bit: those of `bits` that the mask lets through are those of `wanted`. */
  ghost predicate SameBits(bits: nat, mask: nat, wanted: nat) {
    forall i: nat :: Bit(wanted, i) <==> Bit(bits, i) && Bit(mask, i)
  }

  lemma {:induction false} NoBit(i: nat)
    ensures !Bit(0, i)
  {
    if i > 0 {
      NoBit(i - 1);
    }
  }

  lemma {:induction false} BitOfAnd(a: nat, b: nat, i: nat)
    ensures Bit(And(a, b), i) <==> Bit(a, i) && Bit(b, i)
    decreases i
  {
    var rest := And(a / 2, b / 2);
    if b == 0 {
      NoBit(i);
    } else {
      assert And(a, b) / 2 == rest && And(a, b) % 2 == a % 2 * (b % 2);
      if i > 0 {
        BitOfAnd(a / 2, b / 2, i - 1);
      }
    }
  }

  /** The bits make the number. */
  lemma {:induction false} BitThatDiffers(m: nat, n: nat) returns (i: nat)
    requires m != n
    ensures Bit(m, i) != Bit(n, i)
    decreases m + n
  {
    if m % 2 != n % 2 {
      i := 0;
    } else {
      i := BitThatDiffers(m / 2, n / 2);
      i := i + 1;
    }
  }

  lemma {:induction false} BitsMean(bits: Word, mask: Word, wanted: Word)
    ensures HasBits(bits, mask, wanted) <==> SameBits(bits, mask, wanted)
  {
    hide And, Bit;
    forall i: nat ensures Bit(And(bits, mask), i) <==> Bit(bits, i) && Bit(mask, i) {
      BitOfAnd(bits, mask, i);
    }
    if And(bits, mask) != wanted {
      var i := BitThatDiffers(And(bits, mask), wanted);
    }
  }

  predicate IsNumber(d: Data) {
    d.kind == Int64 || d.kind == Float64
  }

  /** The same number; a NaN is the same as a NaN and as no other. */
  ghost predicate SameNumber(d: Data, int64: Word, float: Float) {
    || (d.kind == Int64 && d.int64 == int64)
    || (d.kind == Float64 && d.float.NaN? && float.NaN?)
    || (d.kind == Float64 && !d.float.NaN? && !float.NaN? && d.float == float)
  }

  /** The value test holds of the node; `earlier` are the nodes that face the entries before. */
  ghost predicate Holds(earlier: seq<Ast>, d: Data, v: ValueTest) {
    && (v.NoSideEffects? ==> !d.sideEffects)
    && (v.SameText? && v.index == 0 ==> d.text == v.text)
    && (v.SameText? && v.index != 0 ==> v.index < |earlier| && d.text == earlier[v.index].data.text)
    && (v.Masked? ==> IsNumber(d) && SameBits(if d.kind == Int64 then d.int64 else d.floatBits, v.mask, v.int64))
    && (v.EqualTo? ==> SameNumber(d, v.int64, v.float))
    && (v.IsTrue? ==> d.truth == AlwaysTrue)
    && (v.IsFalse? ==> d.truth == AlwaysFalse)
    && !v.UnknownOperator?
  }

  /** The value test cannot be made: it wants the number of something else, or a node that is not there. */
  ghost predicate CannotTest(earlier: seq<Ast>, d: Data, v: ValueTest) {
    || v.UnknownOperator?
    || (v.SameText? && v.index != 0 && |earlier| <= v.index)
    || ((v.Masked? || v.EqualTo?) && !IsNumber(d))
  }

  ghost predicate KindFits(d: Data, t: Test) {
    t.kinds == [] || exists i :: 0 <= i < |t.kinds| && t.kinds[i] == d.kind
  }

  /** The node is what the entry asks for. */
  ghost predicate NodeFits(earlier: seq<Ast>, d: Data, t: Test) {
    && KindFits(d, t)
    && (t.values != [] ==> Holds(earlier, d, t.values[0]))
    && (forall i :: 0 <= i < |t.attributes| ==> t.attributes[i] == d.attributes)
    && (forall i :: 0 <= i < |t.flags| ==> t.flags[i] == d.flags)
  }

  ghost predicate NodeThrows(earlier: seq<Ast>, d: Data, t: Test) {
    KindFits(d, t) && t.values != [] && CannotTest(earlier, d, t.values[0])
  }

  lemma {:induction false} ValueMeans(earlier: seq<Ast>, d: Data, v: ValueTest)
    ensures ValueVerdict(earlier, d, v) == Matches <==> Holds(earlier, d, v)
    ensures ValueVerdict(earlier, d, v) == Throws <==> CannotTest(earlier, d, v)
  {
    hide HasBits, SameBits;
    if v.Masked? {
      BitsMean(d.int64, v.mask, v.int64);
      BitsMean(d.floatBits, v.mask, v.int64);
    }
  }

  lemma {:induction false} VerdictMeans(earlier: seq<Ast>, d: Data, t: Test)
    ensures NodeVerdict(earlier, d, t) == Matches <==> NodeFits(earlier, d, t)
    ensures NodeVerdict(earlier, d, t) == Throws <==> NodeThrows(earlier, d, t)
  {
    hide Holds, CannotTest, ValueVerdict;
    if t.values != [] {
      ValueMeans(earlier, d, t.values[0]);
    }
  }

  /** A table of one entry: the node matches exactly when it is what the entry asks for, and the exception is
      raised exactly when its type fits and its value cannot be tested. */
  lemma {:induction false} OneEntry(nodes: seq<Ast>, node: Ast, e: Entry)
    ensures var r := FlatMatch(nodes, node, [e], e.depth);
      && (r.Matched? <==> NodeFits(nodes, node.data, e.test))
      && (r.Matched? ==> r.nodes == nodes + [node])
      && (r.Threw? <==> NodeThrows(nodes, node.data, e.test))
  {
    hide NodeVerdict, NodeFits, NodeThrows;
    VerdictMeans(nodes, node.data, e.test);
  }

  /** An entry that asks for a true value, on a node of any type: the truth of the node alone counts. */
  lemma {:induction false} TruthDecides(nodes: seq<Ast>, node: Ast, inner: bool)
    ensures var t, f := Test([], [IsTrue], [], []), Test([], [IsFalse], [], []);
      && (FlatMatch(nodes, node, [Entry(0, inner, t)], 0).Matched? <==> node.data.truth == AlwaysTrue)
      && (FlatMatch(nodes, node, [Entry(0, inner, f)], 0).Matched? <==> node.data.truth == AlwaysFalse)
  {
    hide NodeVerdict;
    OneEntry(nodes, node, Entry(0, inner, Test([], [IsTrue], [], [])));
    OneEntry(nodes, node, Entry(0, inner, Test([], [IsFalse], [], [])));
  }
}
