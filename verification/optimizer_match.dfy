/** The pattern matcher of the optimizer: a tree pattern, flattened into a table of
    depth-tagged entries, matched by a routine that never moves its caller's cursor. */
module OptimizerMatch {
  import opened NodeTree

  // ------------------------------------------------------------------
  //  Nodes and patterns
  // ------------------------------------------------------------------

  datatype Truth = AlwaysTrue | AlwaysFalse | Unclear

  /** A floating point number; both zeros are one. */
  datatype Float = NaN | Infinite(negative: bool) | Finite(value: real)

  /** A 64 bit integer, as the number its bits make without a sign. */
  type Word = n: nat | n < 0x1_0000_0000_0000_0000

  /** What a pattern can ask of one node. `id` tells equal looking nodes apart; `floatBits` is what the
      floating point number becomes as a 32 bit integer. */
  datatype Data = Data(
    id: nat,
    kind: NodeType,
    text: seq<int>,
    int64: Word,
    float: Float,
    floatBits: Word,
    sideEffects: bool,
    truth: Truth,
    attributes: set<nat>,
    flags: set<nat>)

  /** A subtree, as the optimizer reads it. */
  datatype Ast = Ast(data: Data, children: seq<Ast>)

  /** A value test of a table entry. */
  datatype ValueTest =
    | NoSideEffects
    | SameText(index: nat, text: seq<int>)  // index 0 compares with `text`, others with an earlier node
    | Masked(mask: Word, int64: Word)
    | EqualTo(int64: Word, float: Float)  // NaN is only equal to NaN
    | IsTrue
    | IsFalse
    | UnknownOperator

  datatype Test = Test(
    kinds: seq<NodeType>,
    values: seq<ValueTest>,       // none or one
    attributes: seq<set<nat>>,
    flags: seq<set<nat>>)

  datatype Verdict = Matches | Differs | Throws

  function ValueVerdict(earlier: seq<Ast>, d: Data, v: ValueTest): Verdict {
    match v
    case NoSideEffects => if d.sideEffects then Differs else Matches
    case SameText(index, text) =>
      if index == 0 then (if d.text == text then Matches else Differs)
      else if index >= |earlier| then Throws
      else if earlier[index].data.text == d.text then Matches else Differs
    case Masked(mask, int64) =>
      if d.kind == Int64 then (if HasBits(d.int64, mask, int64) then Matches else Differs)
      else if d.kind == Float64 then (if HasBits(d.floatBits, mask, int64) then Matches else Differs)
      else Throws
    case EqualTo(int64, float) =>
      if d.kind == Int64 then (if d.int64 == int64 then Matches else Differs)
      else if d.kind == Float64 then (if d.float == float then Matches else Differs)
      else Throws
    case IsTrue => if d.truth == AlwaysTrue then Matches else Differs
    case IsFalse => if d.truth == AlwaysFalse then Matches else Differs
    case UnknownOperator => Throws
  }

  /** The operator `&`. */
  function And(a: nat, b: nat): nat
    decreases b
  {
    if b == 0 then 0 else a % 2 * (b % 2) + 2 * And(a / 2, b / 2)
  }

  predicate HasBits(bits: Word, mask: Word, wanted: Word) {
    And(bits, mask) == wanted
  }

  /** `match_node()`. All listed sets of attributes must equal those of the node, and the
      same for flags: two different sets can never both match. */
  function NodeVerdict(earlier: seq<Ast>, d: Data, t: Test): Verdict {
    var value := if t.values == [] then Matches else ValueVerdict(earlier, d, t.values[0]);
    if t.kinds != [] && d.kind !in t.kinds then Differs
    else if value != Matches then value
    else if AllSets(t.attributes, d.attributes) && AllSets(t.flags, d.flags) then Matches
    else Differs
  }

  /** Every listed set is the set of the node. */
  predicate AllSets(sets: seq<set<nat>>, s: set<nat>) {
    forall i :: 0 <= i < |sets| ==> sets[i] == s
  }

  /** One line of a match table. The depth is stored in eight bits. */
  datatype Entry = Entry(depth: nat, inner: bool, test: Test)

  datatype MatchResult = Matched(nodes: seq<Ast>) | Failed | Threw

  // ------------------------------------------------------------------
  //  The routine
  // ------------------------------------------------------------------

  /** `m` runs from the current entry to the end of the table; `nodes` is the node array. */
  method MatchTree(nodes: seq<Ast>, node: Ast, m: seq<Entry>, depth: nat) returns (r: MatchResult)
    requires m != []
    ensures r == FlatMatch(nodes, node, m, depth)
    decreases |m|
  {
    if m[0].depth != depth {
      return Failed;
    }
    match NodeVerdict(nodes, node.data, m[0].test)
    case Throws => return Threw;
    case Differs => return Failed;
    case Matches =>
      var nodeArray := nodes + [node];
      var maxChild := |node.children|;
      var c := maxChild;
      var count := |m| - 1;
      if count != 0 && m[0].inner {
        var nextLevel := (depth + 1) % 256;
        c := 0;
        var at := 0;
        while count > 0
          invariant 0 <= at && 0 <= count && at + count == |m| - 1 && 0 <= c <= maxChild
          invariant FlatMatch(nodes, node, m, depth) == FlatLoop(nodeArray, node.children[c..], m[at + 1..], nextLevel)
        {
          at := at + 1;
          assert m[at..][1..] == m[at + 1..];
          if m[at].depth == nextLevel {
            if c >= maxChild {
              return Failed;
            }
            var sub := MatchTree(nodeArray, node.children[c], m[at..], nextLevel);
            if !sub.Matched? {
              return sub;
            }
            nodeArray := sub.nodes;
            assert node.children[c..][1..] == node.children[c + 1..];
            c := c + 1;
          } else if m[at].depth < nextLevel {
            break;
          }
          count := count - 1;
        }
        assert c >= maxChild <==> node.children[c..] == [];
      }
      return if c >= maxChild then Matched(nodeArray) else Failed;
  }

  /** The same on values. */
  function FlatMatch(nodes: seq<Ast>, node: Ast, m: seq<Entry>, depth: nat): MatchResult
    requires m != []
    decreases |m|, 0
  {
    if m[0].depth != depth then Failed
    else
      match NodeVerdict(nodes, node.data, m[0].test)
      case Throws => Threw
      case Differs => Failed
      case Matches =>
        if |m| == 1 || !m[0].inner then Matched(nodes + [node])
        else FlatLoop(nodes + [node], node.children, m[1..], (depth + 1) % 256)
  }

  /** The entries after one that matched, against the children not matched yet. */
  function FlatLoop(nodes: seq<Ast>, left: seq<Ast>, m: seq<Entry>, level: nat): MatchResult
    decreases |m|, 1
  {
    if m == [] || m[0].depth < level then
      if left == [] then Matched(nodes) else Failed
    else if m[0].depth > level then FlatLoop(nodes, left, m[1..], level)
    else if left == [] then Failed
    else
      var sub := FlatMatch(nodes, left[0], m, level);
      if sub.Matched? then FlatLoop(sub.nodes, left[1..], m[1..], level) else sub
  }
}
