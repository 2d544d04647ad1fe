/** The attributes a node can have, and which of them exclude each other. */
module AttributeKinds {

  datatype Attribute =
    | Public | Private | Protected | Internal | Transient | Volatile
    | Static | Abstract | Virtual | Array | Inline
    | RequireElse | EnsureThen
    | Native | Deprecated | Unsafe | Constructor | Final | Enumerable
    | True | False | Unused | Dynamic
    | ForEach | NoBreak | AutoBreak
    | TypeOf | Defined

  /** The attributes whose presence keeps `a` from being set. */
  function Rivals(a: Attribute): set<Attribute> {
    match a
    case RequireElse => {EnsureThen}
    case EnsureThen => {RequireElse}
    case Public => {Private, Protected}
    case Private => {Public, Protected}
    case Protected => {Public, Private}
    case Abstract => {Static, Constructor, Virtual, Native, Inline}
    case Constructor => {Static, Virtual, Inline, Abstract}
    case Inline => {Abstract, Constructor, Native, Virtual}
    case Native => {Abstract, Inline}
    case Static => {Abstract, Constructor, Virtual}
    case Virtual => {Static, Constructor, Abstract, Inline}
    case ForEach => {NoBreak, AutoBreak}
    case NoBreak => {ForEach, AutoBreak}
    case AutoBreak => {ForEach, NoBreak}
    case True => {False}
    case False => {True}
    case _ => {}
  }

  lemma {:induction false} RivalAnswers(a: Attribute, b: Attribute)
    requires b in Rivals(a)
    ensures a in Rivals(b) && a != b
  {
  }

  /** The table is symmetric, so it does not matter which of two rivals comes first. */
  lemma {:induction false} RivalsAreMutual(a: Attribute, b: Attribute)
    ensures a in Rivals(b) <==> b in Rivals(a)
    ensures a !in Rivals(a)
  {
    hide Rivals;
    if b in Rivals(a) { RivalAnswers(a, b); }
    if a in Rivals(b) { RivalAnswers(b, a); }
    if a in Rivals(a) { RivalAnswers(a, a); }
  }

  /** No two attributes of a node exclude each other. */
  predicate Consistent(s: set<Attribute>) {
    forall a :: a in s ==> Rivals(a) !! s
  }

  /** Sets or clears an attribute; one with a rival in place is not set. */
  function Put(s: set<Attribute>, a: Attribute, v: bool): set<Attribute> {
    if !v then s - {a} else if Rivals(a) !! s then s + {a} else s
  }

  lemma {:induction false} PutIsConsistent(s: set<Attribute>, a: Attribute, v: bool)
    requires Consistent(s)
    ensures Consistent(Put(s, a, v))
  {
    hide Rivals;
    forall b | b in Put(s, a, v) ensures Rivals(b) !! Put(s, a, v) {
      RivalsAreMutual(a, b);
      if b in s {
        assert Rivals(b) !! s;
      }
    }
  }
}
