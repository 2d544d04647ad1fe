/** Preparing the attributes of a node: its own list, then what it inherits. */
module PrepareAttributes {
  import opened Text
  import opened NodeTree
  import opened ForestLaws
  import opened OrderedMaps
  import opened GotoTargets
  import opened Attributes
  import A = AttributeKinds

  /** The tree, the strings of the nodes, and the node that holds the attribute list of each. */
  datatype Source = Source(f: Forest, names: Names, lists: map<Node, Node?>)

  ghost predicate SoundSource(src: Source) {
    && Closed(src.f) && src.names.Keys == src.f.parent.Keys && src.lists.Keys == src.f.parent.Keys
    && forall n {:trigger src.lists[n]} :: n in src.lists.Keys && src.lists[n] != null ==> src.lists[n] in src.f.parent
  }

  ghost function SourceOf(S: set<Node>): Source
    reads S`kind, S`parent, S`children, S`lock, S`str, S`attributeNode
  {
    Source(Snapshot(S), NamesOf(S), map n | n in S :: n.attributeNode)
  }

  // ------------------------------------------------------------------
  //  The list
  // ------------------------------------------------------------------

  const ARRAY: Text := [97, 114, 114, 97, 121]
  const AUTOBREAK: Text := [97, 117, 116, 111, 98, 114, 101, 97, 107]
  const CONSTRUCTOR: Text := [99, 111, 110, 115, 116, 114, 117, 99, 116, 111, 114]
  const DEPRECATED: Text := [100, 101, 112, 114, 101, 99, 97, 116, 101, 100]
  const DYNAMIC: Text := [100, 121, 110, 97, 109, 105, 99]
  const ENUMERABLE: Text := [101, 110, 117, 109, 101, 114, 97, 98, 108, 101]
  const FOREACH: Text := [102, 111, 114, 101, 97, 99, 104]
  const INTERNAL: Text := [105, 110, 116, 101, 114, 110, 97, 108]
  const NOBREAK: Text := [110, 111, 98, 114, 101, 97, 107]
  const UNSAFE: Text := [117, 110, 115, 97, 102, 101]
  const UNUSED: Text := [117, 110, 117, 115, 101, 100]
  const VIRTUAL: Text := [118, 105, 114, 116, 117, 97, 108]

  /** The attribute a name stands for; other names are variables, which are not looked up. */
  function Named(s: Text): Option<A.Attribute> {
    if s == ARRAY then Some(A.Array)
    else if s == AUTOBREAK then Some(A.AutoBreak)
    else if s == CONSTRUCTOR then Some(A.Constructor)
    else if s == DEPRECATED then Some(A.Deprecated)
    else if s == DYNAMIC then Some(A.Dynamic)
    else if s == ENUMERABLE then Some(A.Enumerable)
    else if s == FOREACH then Some(A.ForEach)
    else if s == INTERNAL then Some(A.Internal)
    else if s == NOBREAK then Some(A.NoBreak)
    else if s == UNSAFE then Some(A.Unsafe)
    else if s == UNUSED then Some(A.Unused)
    else if s == VIRTUAL then Some(A.Virtual)
    else None
  }

  /** The attribute one entry of a list stands for. */
  function Literal(kind: NodeType, s: Text): Option<A.Attribute> {
    match kind
    case Abstract => Some(A.Abstract)
    case False => Some(A.False)
    case Final => Some(A.Final)
    case Identifier => Named(s)
    case Inline => Some(A.Inline)
    case Native => Some(A.Native)
    case Private => Some(A.Private)
    case Protected => Some(A.Protected)
    case Public => Some(A.Public)
    case Static => Some(A.Static)
    case Transient => Some(A.Transient)
    case True => Some(A.True)
    case Volatile => Some(A.Volatile)
    case _ => None
  }

  function PutLiteral(s: AttributeSet, a: Option<A.Attribute>): AttributeSet {
    if a.Some? then A.Put(s, a.value, true) else s
  }

  /** The attributes after the first `i` entries of the list `l`. */
  ghost function FromList(src: Source, s: AttributeSet, l: Node, i: nat): AttributeSet
    requires SoundSource(src) && l in src.f.parent && i <= |src.f.children[l]|
  {
    if i == 0 then s
    else
      var x := src.f.children[l][i - 1];
      assert x in src.f.children[l];
      PutLiteral(FromList(src, s, l, i - 1), Literal(src.f.kind[x], src.names[x]))
  }

  ghost function Own(src: Source, s: AttributeSet, n: Node): AttributeSet
    requires SoundSource(src) && n in src.f.parent
  {
    var l := src.lists[n];
    if l == null then s else FromList(src, s, l, |src.f.children[l]|)
  }

  // ------------------------------------------------------------------
  //  What is inherited
  // ------------------------------------------------------------------

  const VISIBILITY: AttributeSet := {A.Public, A.Private, A.Protected}
  const MEMBERSHIP: AttributeSet := {A.Static, A.Abstract, A.Virtual}

  /** The value the parent has. */
  function Copy(s: AttributeSet, p: AttributeSet, a: A.Attribute): AttributeSet {
    A.Put(s, a, a in p)
  }

  function CopyVisibility(s: AttributeSet, p: AttributeSet): AttributeSet {
    if VISIBILITY !! s then Copy(Copy(Copy(s, p, A.Public), p, A.Private), p, A.Protected) else s
  }

  function CopyMembership(s: AttributeSet, p: AttributeSet): AttributeSet {
    if MEMBERSHIP !! s then Copy(Copy(Copy(s, p, A.Static), p, A.Abstract), p, A.Virtual) else s
  }

  function CopyFalse(s: AttributeSet, p: AttributeSet): AttributeSet {
    if A.False in p then A.Put(A.Put(s, A.True, false), A.False, true) else s
  }

  function CopyClass(s: AttributeSet, p: AttributeSet, isClass: bool): AttributeSet {
    if isClass then s else Copy(Copy(s, p, A.Dynamic), p, A.Final)
  }

  function Inherit(s: AttributeSet, p: AttributeSet, isClass: bool): AttributeSet {
    CopyClass(CopyFalse(Copy(Copy(CopyMembership(CopyVisibility(s, p), p), p, A.Native), p, A.Enumerable), p), p, isClass)
  }

  ghost predicate HasList(f: Forest, n: Node) {
    n in f.children && exists i :: 0 <= i < |f.children[n]| && f.children[n][i] in f.kind && f.kind[f.children[n][i]] == DirectiveList
  }

  /** A function with a body is not native. */
  ghost predicate HasBody(f: Forest, n: Node)
    requires Closed(f) && n in f.parent
  {
    f.kind[n] == Function && HasList(f, n)
  }

  ghost function Finish(f: Forest, n: Node, s: AttributeSet): AttributeSet
    requires Closed(f) && n in f.parent
  {
    if HasBody(f, n) then s - {A.Native} else s
  }

  /** Where inheritance stops. */
  predicate IsTop(t: NodeType) {
    t == Package || t == Program
  }

  ghost predicate Inherits(f: Forest, n: Node)
    requires Closed(f) && n in f.parent
  {
    !IsTop(f.kind[n]) && f.parent[n] != null && f.parent[n] in f.kind && !IsTop(f.kind[f.parent[n]])
  }

  /** The four steps, on the attributes of all nodes. */
  ghost function Marked(m: AttributeMap, n: Node): (r: AttributeMap)
    requires n in m.Keys
    ensures r.Keys == m.Keys
  {
    m[n := m[n] + {A.Defined}]
  }

  ghost function WithOwn(src: Source, m: AttributeMap, n: Node): (r: AttributeMap)
    requires SoundSource(src) && n in src.f.parent && n in m.Keys
    ensures r.Keys == m.Keys
  {
    m[n := Own(src, m[n], n)]
  }

  ghost function WithParent(src: Source, m: AttributeMap, n: Node, p: Node): (r: AttributeMap)
    requires n in m.Keys && p in m.Keys && p in src.f.kind
    ensures r.Keys == m.Keys
  {
    m[n := Inherit(m[n], m[p], src.f.kind[p] == Class)]
  }

  ghost function Finished(src: Source, m: AttributeMap, n: Node): (r: AttributeMap)
    requires SoundSource(src) && n in src.f.parent && n in m.Keys
    ensures r.Keys == m.Keys
  {
    m[n := Finish(src.f, n, m[n])]
  }

  /** What comes after the list. */
  ghost function AfterOwn(src: Source, m: AttributeMap, n: Node, k: nat): (r: AttributeMap)
    requires SoundSource(src) && n in src.f.parent && m.Keys == src.f.parent.Keys
    ensures r.Keys == m.Keys
    decreases k, 0
  {
    if !Inherits(src.f, n) || k == 0 then Finished(src, m, n)
    else
      var p := src.f.parent[n];
      Finished(src, WithParent(src, Prepare(src, m, p, k - 1), n, p), n)
  }

  /** `prepare_attributes()` on the attributes of all nodes. */
  ghost function Prepare(src: Source, m: AttributeMap, n: Node, k: nat): (r: AttributeMap)
    requires SoundSource(src) && n in src.f.parent && m.Keys == src.f.parent.Keys
    ensures r.Keys == m.Keys
    decreases k, 1
  {
    if A.Defined in m[n] then m
    else if src.f.kind[n] == Program then Marked(m, n)
    else AfterOwn(src, WithOwn(src, Marked(m, n), n), n, k)
  }

  // ------------------------------------------------------------------
  //  The code
  // ------------------------------------------------------------------

  method PutOn(typed: NodeType -> bool, n: Node, a: A.Attribute, v: bool)
    requires n.kind != Program && a != A.TypeOf
    modifies n`attributes
    ensures n.attributes == A.Put(old(n.attributes), a, v)
  {
    hide A.Put, A.Rivals;
    var r := SetAttribute(typed, n, a, v);
  }

  method NodeToAttrs(typed: NodeType -> bool, n: Node, x: Node)
    requires n.kind != Program
    modifies n`attributes
    ensures n.attributes == PutLiteral(old(n.attributes), Literal(x.kind, x.str))
  {
    hide A.Put, Named;
    var a := Literal(x.kind, x.str);
    NotTypeOf(x.kind, x.str);
    if a.Some? {
      PutOn(typed, n, a.value, true);
    }
  }

  lemma {:induction false} NotTypeOf(kind: NodeType, s: Text)
    ensures Literal(kind, s) != Some(A.TypeOf)
  {
  }

  /** The child can redefine: the parent is ignored if any of the three is there. */
  method VisibilityFrom(typed: NodeType -> bool, n: Node, parent: Node)
    requires n.kind != Program && n != parent
    modifies n`attributes
    ensures n.attributes == CopyVisibility(old(n.attributes), parent.attributes)
  {
    hide A.Put, A.Rivals;
    if A.Public !in n.attributes && A.Private !in n.attributes && A.Protected !in n.attributes {
      PutOn(typed, n, A.Public, A.Public in parent.attributes);
      PutOn(typed, n, A.Private, A.Private in parent.attributes);
      PutOn(typed, n, A.Protected, A.Protected in parent.attributes);
    }
  }

  method MembershipFrom(typed: NodeType -> bool, n: Node, parent: Node)
    requires n.kind != Program && n != parent
    modifies n`attributes
    ensures n.attributes == CopyMembership(old(n.attributes), parent.attributes)
  {
    hide A.Put, A.Rivals;
    if A.Static !in n.attributes && A.Abstract !in n.attributes && A.Virtual !in n.attributes {
      PutOn(typed, n, A.Static, A.Static in parent.attributes);
      PutOn(typed, n, A.Abstract, A.Abstract in parent.attributes);
      PutOn(typed, n, A.Virtual, A.Virtual in parent.attributes);
    }
  }

  /** False has priority. */
  method FalseFrom(typed: NodeType -> bool, n: Node, parent: Node)
    requires n.kind != Program && n != parent
    modifies n`attributes
    ensures n.attributes == CopyFalse(old(n.attributes), parent.attributes)
  {
    hide A.Put, A.Rivals;
    if A.False in parent.attributes {
      PutOn(typed, n, A.True, false);
      PutOn(typed, n, A.False, true);
    }
  }

  method InheritFrom(typed: NodeType -> bool, n: Node, parent: Node)
    requires n.kind != Program && n != parent
    modifies n`attributes
    ensures n.attributes == Inherit(old(n.attributes), parent.attributes, parent.kind == Class)
  {
    hide A.Put, A.Rivals, CopyVisibility, CopyMembership, CopyFalse;
    VisibilityFrom(typed, n, parent);
    MembershipFrom(typed, n, parent);
    PutOn(typed, n, A.Native, A.Native in parent.attributes);
    PutOn(typed, n, A.Enumerable, A.Enumerable in parent.attributes);
    FalseFrom(typed, n, parent);
    if parent.kind != Class {
      PutOn(typed, n, A.Dynamic, A.Dynamic in parent.attributes);
      PutOn(typed, n, A.Final, A.Final in parent.attributes);
    }
  }

  lemma {:induction false} SourceAt(S: set<Node>, n: Node)
    requires n in S && SoundSource(SourceOf(S))
    ensures var src := SourceOf(S);
      && src.f.parent.Keys == S && src.f == Snapshot(S) && src.f.kind[n] == n.kind && src.f.parent[n] == n.parent
      && src.f.children[n] == n.children && src.names[n] == n.str && src.lists[n] == n.attributeNode
      && (n.attributeNode != null ==> n.attributeNode in S) && (n.parent != null ==> n.parent in S)
      && (forall i :: 0 <= i < |n.children| ==> n.children[i] in S)
  {
    assert forall i :: 0 <= i < |n.children| ==> n.children[i] in n.children && n.children[i] in Snapshot(S).children[n];
    assert n.parent != null ==> Snapshot(S).parent[n] in Snapshot(S).parent;
  }

  method ReadList(typed: NodeType -> bool, n: Node, l: Node, ghost S: set<Node>, ghost src: Source)
    requires n in S && l in S && n.kind != Program && src == SourceOf(S) && SoundSource(src)
    modifies n`attributes
    ensures src == SourceOf(S) && l in src.f.parent
    ensures n.attributes == FromList(src, old(n.attributes), l, |src.f.children[l]|)
  {
    hide SourceOf, SoundSource, Literal, PutLiteral, FromList;
    ghost var before := n.attributes;
    SourceAt(S, l);
    FromNothing(src, before, l);
    var idx := 0;
    while idx < |l.children|
      invariant 0 <= idx <= |l.children|
      invariant n.attributes == FromList(src, before, l, idx)
    {
      FromOneMore(src, before, l, idx);
      SourceAt(S, l.children[idx]);
      NodeToAttrs(typed, n, l.children[idx]);
      idx := idx + 1;
    }
  }

  /** The attribute list of the node. */
  method AttrsFromList(typed: NodeType -> bool, n: Node, ghost S: set<Node>, ghost src: Source)
    requires n in S && n.kind != Program && src == SourceOf(S) && SoundSource(src)
    modifies n`attributes
    ensures src == SourceOf(S) && n in src.f.parent
    ensures n.attributes == Own(src, old(n.attributes), n)
  {
    hide SourceOf, SoundSource, FromList;
    SourceAt(S, n);
    if n.attributeNode != null {
      ReadList(typed, n, n.attributeNode, S, src);
    }
  }

  lemma {:induction false} FromNothing(src: Source, s: AttributeSet, l: Node)
    requires SoundSource(src) && l in src.f.parent
    ensures FromList(src, s, l, 0) == s
  {
  }

  lemma {:induction false} FromOneMore(src: Source, s: AttributeSet, l: Node, i: nat)
    requires SoundSource(src) && l in src.f.parent && i < |src.f.children[l]|
    ensures var x := src.f.children[l][i];
      && x in src.f.parent && x in src.f.kind && x in src.names
      && FromList(src, s, l, i + 1) == PutLiteral(FromList(src, s, l, i), Literal(src.f.kind[x], src.names[x]))
  {
    assert src.f.children[l][i] in src.f.children[l];
  }

  /** Looks for a list of directives among the children. */
  method FindBody(n: Node, ghost S: set<Node>, ghost src: Source) returns (found: bool)
    requires n in S && src == SourceOf(S) && SoundSource(src)
    ensures n in src.f.parent && found == HasList(src.f, n)
  {
    hide SoundSource, SourceOf;
    ghost var f := src.f;
    SourceAt(S, n);
    var idx := 0;
    while idx < |n.children|
      invariant 0 <= idx <= |n.children|
      invariant forall i :: 0 <= i < idx ==> n.children[i].kind != DirectiveList
    {
      var list := n.children[idx];
      SourceAt(S, list);
      if list.kind == DirectiveList {
        assert f.children[n][idx] == list;
        return true;
      }
      idx := idx + 1;
    }
    forall i | 0 <= i < |f.children[n]| ensures f.children[n][i] in f.kind && f.kind[f.children[n][i]] != DirectiveList {
      SourceAt(S, n.children[i]);
    }
    found := false;
  }

  /** A body, whoever said it is native, makes a function not native. */
  method DropNative(typed: NodeType -> bool, n: Node, ghost S: set<Node>, ghost src: Source)
    requires n in S && n.kind != Program && src == SourceOf(S) && SoundSource(src)
    modifies n`attributes
    ensures src == SourceOf(S) && n in src.f.parent
    ensures n.attributes == Finish(src.f, n, old(n.attributes))
  {
    hide SourceOf, SoundSource, A.Rivals, HasList;
    SourceAt(S, n);
    if A.Native in n.attributes && n.kind == Function {
      var found := FindBody(n, S, src);
      if found {
        PutOn(typed, n, A.Native, false);
      }
    }
  }

  lemma {:induction false} ParentSetting(S: set<Node>, n: Node, k: nat)
    requires n in S && SoundSource(SourceOf(S)) && Grounded(SourceOf(S).f.parent, n, k)
    ensures k > 0 && n.parent != n
    ensures Inherits(SourceOf(S).f, n)
      <==> !IsTop(n.kind) && n.parent != null && !IsTop(n.parent.kind)
    ensures n.parent != null ==> n.parent in S && Grounded(SourceOf(S).f.parent, n.parent, k - 1)
    ensures n.parent != null && n.parent in S ==> SourceOf(S).f.kind[n.parent] == n.parent.kind
  {
    var f := SourceOf(S).f;
    SourceAt(S, n);
    GroundedNoReturn(f.parent, n, k, 1);
    assert Up(f.parent, n, 1) == n.parent;
  }

  method MarkStep(typed: NodeType -> bool, n: Node, ghost S: set<Node>)
    requires n in S
    modifies n`attributes
    ensures n in old(AttributesOf(S)).Keys && AttributesOf(S) == Marked(old(AttributesOf(S)), n)
  {
    var r := SetAttribute(typed, n, A.Defined, true);
  }

  method OwnStep(typed: NodeType -> bool, n: Node, ghost S: set<Node>, ghost src: Source)
    requires n in S && n.kind != Program && src == SourceOf(S) && SoundSource(src)
    modifies n`attributes
    ensures src == SourceOf(S) && n in src.f.parent && n in old(AttributesOf(S)).Keys
    ensures AttributesOf(S) == WithOwn(src, old(AttributesOf(S)), n)
  {
    hide SourceOf, SoundSource, Own;
    AttrsFromList(typed, n, S, src);
  }

  method ParentStep(typed: NodeType -> bool, n: Node, parent: Node, ghost S: set<Node>, ghost src: Source)
    requires n in S && parent in S && n.kind != Program && parent.kind != Program && n != parent && src == SourceOf(S) && SoundSource(src)
    modifies n`attributes
    ensures n in old(AttributesOf(S)).Keys && parent in old(AttributesOf(S)).Keys && parent in src.f.kind
    ensures AttributesOf(S) == WithParent(src, old(AttributesOf(S)), n, parent)
  {
    hide Inherit, SoundSource, SourceOf;
    SourceAt(S, parent);
    InheritFrom(typed, n, parent);
  }

  method FinishStep(typed: NodeType -> bool, n: Node, ghost S: set<Node>, ghost src: Source)
    requires n in S && n.kind != Program && src == SourceOf(S) && SoundSource(src)
    modifies n`attributes
    ensures src == SourceOf(S) && n in src.f.parent && n in old(AttributesOf(S)).Keys
    ensures AttributesOf(S) == Finished(src, old(AttributesOf(S)), n)
  {
    hide SourceOf, SoundSource, Finish;
    DropNative(typed, n, S, src);
  }

  /** Marks the node as done, reads its list, and then looks at its parent, which is prepared
      first. A node that is done is left alone. */
  method PrepareAttributes(typed: NodeType -> bool, n: Node, ghost S: set<Node>, ghost src: Source, ghost k: nat)
    requires n in S && src == SourceOf(S) && SoundSource(src) && Grounded(src.f.parent, n, k)
    modifies S`attributes
    ensures src == SourceOf(S) && n in src.f.parent && old(AttributesOf(S)).Keys == src.f.parent.Keys
    ensures AttributesOf(S) == Prepare(src, old(AttributesOf(S)), n, k)
    decreases k, 1
  {
    hide SourceOf, SoundSource, Grounded, Marked, WithOwn, AfterOwn, AttributesOf;
    SourceAt(S, n);
    AttributesAt(S, n);
    if A.Defined in n.attributes {
      return;
    }
    MarkStep(typed, n, S);
    if n.kind == Program {
      return;
    }
    OwnStep(typed, n, S, src);
    PrepareFromParent(typed, n, S, src, k);
  }

  /** The second half: the parent, and the body. */
  method PrepareFromParent(typed: NodeType -> bool, n: Node, ghost S: set<Node>, ghost src: Source, ghost k: nat)
    requires n in S && n.kind != Program && src == SourceOf(S) && SoundSource(src) && Grounded(src.f.parent, n, k)
    modifies S`attributes
    ensures src == SourceOf(S) && n in src.f.parent && old(AttributesOf(S)).Keys == src.f.parent.Keys
    ensures AttributesOf(S) == AfterOwn(src, old(AttributesOf(S)), n, k)
    decreases k, 0
  {
    hide SourceOf, SoundSource, Grounded, WithParent, Finished, Prepare, Inherits, AttributesOf, Closed;
    SourceAt(S, n);
    AttributesAt(S, n);
    ParentSetting(S, n, k);
    var parent := n.parent;
    if n.kind != Package && parent != null && !IsTop(parent.kind) {
      PrepareAttributes(typed, parent, S, src, k - 1);
      ParentStep(typed, n, parent, S, src);
    }
    FinishStep(typed, n, S, src);
  }
}
