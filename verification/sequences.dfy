/** Facts about sequences that several parts of the model share. */
module Sequences {

  ghost predicate NoDup<T>(s: seq<T>) {
    forall i, j :: 0 <= i < j < |s| ==> s[i] != s[j]
  }

  /** The first position of `x`, as `std::find()` reports it; `|s|` stands for `end()`. */
  function IndexOf<T(==)>(s: seq<T>, x: T): (k: nat)
    ensures k <= |s|
    ensures k < |s| <==> x in s
    ensures k < |s| ==> s[k] == x
  {
    if s == [] then 0
    else if s[0] == x then 0
    else 1 + IndexOf(s[1..], x)
  }

  /** `s` with the first occurrence of `x`, if any, erased. */
  function Without<T(==)>(s: seq<T>, x: T): (r: seq<T>)
    ensures |r| == |s| - (if x in s then 1 else 0)
  {
    var i := IndexOf(s, x);
    if i < |s| then s[..i] + s[i + 1..] else s
  }

  function InsertAt<T>(s: seq<T>, i: nat, x: T): (r: seq<T>)
    requires i <= |s|
    ensures |r| == |s| + 1
  {
    s[..i] + [x] + s[i..]
  }

  lemma {:induction false} OnlyOldMembers<T>(s: seq<T>, x: T, i: nat)
    ensures forall y {:trigger y in Without(s, x)} :: y in Without(s, x) ==> y in s
    ensures i <= |s| ==> forall y {:trigger y in InsertAt(s, i, x)} :: y in InsertAt(s, i, x) ==> y in s || y == x
  {
  }

  lemma {:induction false} IndexOfIsFirst<T>(s: seq<T>, x: T, i: nat)
    requires i < IndexOf(s, x)
    ensures s[i] != x
  {
    if i > 0 {
      IndexOfIsFirst(s[1..], x, i - 1);
    }
  }

  /** Erasing from a sequence without repetitions erases the value. */
  lemma {:induction false} WithoutMembers<T>(s: seq<T>, x: T)
    requires NoDup(s)
    ensures NoDup(Without(s, x))
    ensures forall y :: y in Without(s, x) <==> y in s && y != x
  {
    var r, i := Without(s, x), IndexOf(s, x);
    forall y | y in s && y != x ensures y in r {
      var k :| 0 <= k < |s| && s[k] == y;
      assert r[if k < i then k else k - 1] == y;
    }
    forall y | y in r ensures y in s && y != x {
      var k :| 0 <= k < |r| && r[k] == y;
      assert s[if k < i then k else k + 1] == y;
    }
  }

  lemma {:induction false} InsertAtMembers<T>(s: seq<T>, i: nat, x: T)
    requires NoDup(s) && i <= |s| && x !in s
    ensures NoDup(InsertAt(s, i, x))
    ensures forall y :: y in InsertAt(s, i, x) <==> y in s || y == x
  {
    var r := InsertAt(s, i, x);
    forall y | y in s ensures y in r {
      var k :| 0 <= k < |s| && s[k] == y;
      assert r[if k < i then k else k + 1] == y;
    }
    forall j, k | 0 <= j < k < |r| ensures r[j] != r[k] {
      var j' := if j < i then j else j - 1;
      var k' := if k < i then k else k - 1;
      if j != i && k != i {
        assert r[j] == s[j'] && r[k] == s[k'];
      } else if j == i {
        assert r[k] == s[k'];
      } else {
        assert r[j] == s[j'];
      }
    }
  }

  /** Taking an element out and putting it back at the same place changes nothing. */
  lemma {:induction false} WithoutThenInsert<T>(s: seq<T>, x: T)
    requires x in s
    ensures InsertAt(Without(s, x), IndexOf(s, x), x) == s
  {
  }

  lemma {:induction false} InsertThenWithout<T>(s: seq<T>, i: nat, x: T)
    requires NoDup(s) && i <= |s| && x !in s
    ensures IndexOf(InsertAt(s, i, x), x) == i && Without(InsertAt(s, i, x), x) == s
  {
    hide NoDup, IndexOf;
    var r := InsertAt(s, i, x);
    InsertAtMembers(s, i, x);
    assert r[i] == x;
    IndexOfAt(r, i);
    assert r[..i] == s[..i] && r[i + 1..] == s[i..];
    assert s[..i] + s[i..] == s;
  }

  /** In a sequence without repetitions a member has one position. */
  lemma {:induction false} IndexOfAt<T>(s: seq<T>, i: nat)
    requires NoDup(s) && i < |s|
    ensures IndexOf(s, s[i]) == i
  {
    assert s[IndexOf(s, s[i])] == s[i];
  }
}
