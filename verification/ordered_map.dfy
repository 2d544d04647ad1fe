/** Maps whose entries are kept in key order, as in a std::map. */
module OrderedMaps {
  import opened Text

  datatype Option<V> = None | Some(value: V)

  datatype Entry<V> = Entry(name: Text, value: V)

  predicate InOrder<V>(es: seq<Entry<V>>) {
    forall i, j :: 0 <= i < j < |es| ==> Less(es[i].name, es[j].name)
  }

  function Get<V>(es: seq<Entry<V>>, name: Text): Option<V> {
    if es == [] then None else if es[0].name == name then Some(es[0].value) else Get(es[1..], name)
  }

  /** A new key goes to its place; an old one gets the new value. */
  function Put<V>(es: seq<Entry<V>>, name: Text, v: V): seq<Entry<V>> {
    if es == [] || Less(name, es[0].name) then [Entry(name, v)] + es
    else if es[0].name == name then [Entry(name, v)] + es[1..]
    else [es[0]] + Put(es[1..], name, v)
  }

  function Erase<V>(es: seq<Entry<V>>, name: Text): seq<Entry<V>> {
    if es == [] then [] else if es[0].name == name then es[1..] else [es[0]] + Erase(es[1..], name)
  }

  lemma {:induction false} PutGet<V>(es: seq<Entry<V>>, name: Text, v: V, k: Text)
    ensures Get(Put(es, name, v), k) == if k == name then Some(v) else Get(es, k)
  {
    if es != [] && !Less(name, es[0].name) && es[0].name != name {
      PutGet(es[1..], name, v, k);
    }
  }

  lemma {:induction false} InOrderCons<V>(e: Entry<V>, es: seq<Entry<V>>)
    requires InOrder(es) && (es != [] ==> Less(e.name, es[0].name))
    ensures InOrder([e] + es)
  {
    forall j | 0 <= j < |es| ensures Less(e.name, es[j].name) {
      if j > 0 {
        LessTransitive(e.name, es[0].name, es[j].name);
      }
    }
  }

  lemma {:induction false} PutInOrder<V>(es: seq<Entry<V>>, name: Text, v: V)
    requires InOrder(es)
    ensures InOrder(Put(es, name, v))
    ensures var r := Put(es, name, v);
      r != [] && (r[0].name == name || (es != [] && r[0].name == es[0].name))
  {
    hide Less;
    if es == [] {
    } else if Less(name, es[0].name) {
      InOrderCons(Entry(name, v), es);
    } else if es[0].name == name {
    } else {
      PutInOrder(es[1..], name, v);
      LessTotal(name, es[0].name);
      InOrderCons(es[0], Put(es[1..], name, v));
    }
  }

  lemma {:induction false} EraseGet<V>(es: seq<Entry<V>>, name: Text, k: Text)
    requires InOrder(es)
    ensures Get(Erase(es, name), k) == if k == name then None else Get(es, k)
  {
    if es == [] {
    } else if es[0].name == name {
      Absent(es[1..], name);
    } else {
      EraseGet(es[1..], name, k);
    }
  }

  /** What comes after a key is not that key. */
  lemma {:induction false} Absent<V>(es: seq<Entry<V>>, name: Text)
    requires forall i :: 0 <= i < |es| ==> Less(name, es[i].name)
    ensures Get(es, name) == None
  {
    if es != [] {
      LessIrreflexive(name);
      Absent(es[1..], name);
    }
  }

  /** What is left starts where it did, or later. */
  lemma {:induction false} EraseInOrder<V>(es: seq<Entry<V>>, name: Text)
    requires InOrder(es)
    ensures InOrder(Erase(es, name))
    ensures Erase(es, name) != [] ==> es != [] && (Erase(es, name)[0] == es[0] || Less(es[0].name, Erase(es, name)[0].name))
  {
    hide Less;
    if es != [] && es[0].name != name {
      EraseInOrder(es[1..], name);
      var r := Erase(es[1..], name);
      if r != [] && r[0] != es[1] {
        LessTransitive(es[0].name, es[1].name, r[0].name);
      }
      InOrderCons(es[0], r);
    }
  }

  lemma {:induction false} GetAt<V>(es: seq<Entry<V>>, i: nat)
    requires InOrder(es) && i < |es|
    ensures Get(es, es[i].name) == Some(es[i].value)
  {
    if i > 0 {
      LessIrreflexive(es[i].name);
      assert es[1..][i - 1] == es[i];
      GetAt(es[1..], i - 1);
    }
  }

  lemma {:induction false} GetIs<V>(es: seq<Entry<V>>, name: Text) returns (i: nat)
    requires Get(es, name).Some?
    ensures i < |es| && es[i] == Entry(name, Get(es, name).value)
  {
    if es[0].name == name {
      i := 0;
    } else {
      i := GetIs(es[1..], name);
      i := i + 1;
    }
  }
}
