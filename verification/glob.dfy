/** The patterns of the package database: an asterisk stands for any string. */
module Glob {
  import opened Text
  import opened OrderedMaps

  const STAR: int := 42

  /** What a zero terminated string holds. */
  function CString(s: Text): (r: Text)
    ensures |r| <= |s| && r == s[..|r|] && 0 !in r
    ensures |r| < |s| ==> s[|r|] == 0
  {
    if s == [] || s[0] == 0 then [] else [s[0]] + CString(s[1..])
  }

  /** The character under a cursor. */
  function At(s: Text, i: nat): int {
    if i < |s| then s[i] else 0
  }

  function SkipStars(p: Text): (r: Text)
    ensures |r| <= |p| && (r != [] ==> r[0] != STAR)
  {
    if p != [] && p[0] == STAR then SkipStars(p[1..]) else p
  }

  predicate Matches(name: Text, pattern: Text)
    decreases |pattern|, 0
  {
    if pattern == [] then name == []
    else if pattern[0] == STAR then
      var q := SkipStars(pattern[1..]);
      q == [] || MatchesSome(name, q)
    else name != [] && name[0] == pattern[0] && Matches(name[1..], pattern[1..])
  }

  /** Some non-empty end of the name matches. */
  predicate MatchesSome(name: Text, pattern: Text)
    decreases |pattern|, |name| + 1
  {
    name != [] && (Matches(name, pattern) || MatchesSome(name[1..], pattern))
  }

  /** The recursive part of `match_pattern()`; `n` and `p` are its cursors. */
  method DoMatch(name: Text, n0: nat, pattern: Text, p0: nat) returns (r: bool)
    requires n0 <= |name| && p0 <= |pattern| && 0 !in name && 0 !in pattern
    ensures r == Matches(name[n0..], pattern[p0..])
    decreases |pattern| - p0
  {
    var n, p := n0, p0;
    while At(pattern, p) != 0
      invariant 0 <= n <= |name| && p0 <= p <= |pattern|
      invariant Matches(name[n0..], pattern[p0..]) == Matches(name[n..], pattern[p..])
      decreases |pattern| - p
    {
      assert pattern[p..][0] == pattern[p] && pattern[p..][1..] == pattern[p + 1..];
      if pattern[p] == STAR {
        ghost var q := SkipStars(pattern[p + 1..]);
        p := p + 1;
        while At(pattern, p) == STAR
          invariant p0 < p <= |pattern| && q == SkipStars(pattern[p..])
          decreases |pattern| - p
        {
          assert pattern[p..][1..] == pattern[p + 1..];
          p := p + 1;
        }
        assert p < |pattern| ==> pattern[p..][0] == pattern[p];
        if At(pattern, p) == 0 {
          return true;
        }
        while At(name, n) != 0
          invariant 0 <= n <= |name|
          invariant Matches(name[n0..], pattern[p0..]) == MatchesSome(name[n..], q)
          decreases |name| - n
        {
          var found := DoMatch(name, n, pattern, p);
          if found {
            return true;
          }
          assert name[n..][1..] == name[n + 1..];
          n := n + 1;
        }
        return false;
      }
      if At(name, n) != pattern[p] {
        return false;
      }
      assert name[n..][0] == name[n] && name[n..][1..] == name[n + 1..];
      p := p + 1;
      n := n + 1;
    }
    r := At(name, n) == 0;
  }

  method MatchPattern(name: Text, pattern: Text) returns (r: bool)
    ensures r == Matches(CString(name), CString(pattern))
  {
    r := DoMatch(CString(name), 0, CString(pattern), 0);
    assert CString(name)[0..] == CString(name) && CString(pattern)[0..] == CString(pattern);
  }

  // ------------------------------------------------------------------
  //  What a match means
  // ------------------------------------------------------------------

  function Stars(pattern: Text): nat {
    if pattern == [] then 0 else (if pattern[0] == STAR then 1 else 0) + Stars(pattern[1..])
  }

  /** The pattern with each asterisk replaced by a string of its own. */
  function Fill(pattern: Text, strings: seq<Text>): Text
    requires |strings| == Stars(pattern)
  {
    if pattern == [] then []
    else if pattern[0] == STAR then strings[0] + Fill(pattern[1..], strings[1..])
    else [pattern[0]] + Fill(pattern[1..], strings)
  }

  /** More asterisks can be filled with nothing. */
  lemma {:induction false} FillSkipped(p: Text, strings: seq<Text>) returns (more: seq<Text>)
    requires |strings| == Stars(SkipStars(p))
    ensures |more| == Stars(p) && Fill(p, more) == Fill(SkipStars(p), strings)
  {
    if p != [] && p[0] == STAR {
      more := FillSkipped(p[1..], strings);
      more := [[]] + more;
      assert more[1..] == more[1..][0..];
      assert [] + Fill(p[1..], more[1..]) == Fill(p[1..], more[1..]);
    } else {
      more := strings;
    }
  }

  lemma {:induction false} Filled(name: Text, pattern: Text) returns (strings: seq<Text>)
    requires Matches(name, pattern)
    ensures |strings| == Stars(pattern) && Fill(pattern, strings) == name
    decreases |pattern|, 0
  {
    if pattern == [] {
      strings := [];
    } else if pattern[0] == STAR {
      var q := SkipStars(pattern[1..]);
      var k, some := |name|, [];
      if q != [] {
        k, some := FilledSome(name, q);
      }
      var more := FillSkipped(pattern[1..], some);
      strings := [name[..k]] + more;
      assert strings[1..] == more;
      assert name[..k] + name[k..] == name;
    } else {
      strings := Filled(name[1..], pattern[1..]);
      assert [name[0]] + name[1..] == name;
    }
  }

  lemma {:induction false} FilledSome(name: Text, pattern: Text) returns (k: nat, strings: seq<Text>)
    requires MatchesSome(name, pattern)
    ensures k <= |name| && |strings| == Stars(pattern) && Fill(pattern, strings) == name[k..]
    decreases |pattern|, |name| + 1
  {
    if Matches(name, pattern) {
      k := 0;
      strings := Filled(name, pattern);
      assert name[0..] == name;
    } else {
      k, strings := FilledSome(name[1..], pattern);
      assert name[1..][k..] == name[k + 1..];
      k := k + 1;
    }
  }

  /** What asterisks in front were filled with comes off the front. */
  lemma {:induction false} Unskip(p: Text, strings: seq<Text>) returns (w: Text, rest: seq<Text>)
    requires |strings| == Stars(p)
    ensures |rest| == Stars(SkipStars(p)) && Fill(p, strings) == w + Fill(SkipStars(p), rest)
  {
    if p != [] && p[0] == STAR {
      w, rest := Unskip(p[1..], strings[1..]);
      Assoc(strings[0], w, Fill(SkipStars(p), rest));
      w := strings[0] + w;
    } else {
      w, rest := [], strings;
      assert [] + Fill(p, strings) == Fill(p, strings);
    }
  }

  lemma {:induction false} SomeEnd(w: Text, x: Text, pattern: Text)
    requires x != [] && Matches(x, pattern)
    ensures MatchesSome(w + x, pattern)
  {
    if w == [] {
      assert w + x == x;
    } else {
      assert (w + x)[1..] == w[1..] + x;
      SomeEnd(w[1..], x, pattern);
    }
  }

  lemma {:induction false} FillMatches(pattern: Text, strings: seq<Text>)
    requires |strings| == Stars(pattern)
    ensures Matches(Fill(pattern, strings), pattern)
    decreases |pattern|
  {
    if pattern == [] {
    } else if pattern[0] == STAR {
      var w, rest := Unskip(pattern, strings);
      var q := SkipStars(pattern[1..]);
      if q != [] {
        FillMatches(q, rest);
        SomeEnd(w, Fill(q, rest), q);
      }
    } else {
      FillMatches(pattern[1..], strings);
      assert Fill(pattern, strings)[1..] == Fill(pattern[1..], strings);
    }
  }

  /** A name matches a pattern exactly when it is the pattern with a string in the place of
      each asterisk. */
  lemma {:induction false} MatchesIffFilled(name: Text, pattern: Text)
    ensures Matches(name, pattern) <==> exists strings :: |strings| == Stars(pattern) && Fill(pattern, strings) == name
  {
    if Matches(name, pattern) {
      var strings := Filled(name, pattern);
    }
    if strings: seq<Text> :| |strings| == Stars(pattern) && Fill(pattern, strings) == name {
      FillMatches(pattern, strings);
    }
  }

  // ------------------------------------------------------------------
  //  Searching a map
  // ------------------------------------------------------------------

  predicate Fits(name: Text, pattern: Text) {
    Matches(CString(name), CString(pattern))
  }

  /** The values whose names fit, in key order. */
  function Fitting<V>(es: seq<Entry<V>>, pattern: Text): seq<V> {
    if es == [] then []
    else (if Fits(es[0].name, pattern) then [es[0].value] else []) + Fitting(es[1..], pattern)
  }

  lemma {:induction false} FittingSplit<V>(es: seq<Entry<V>>, fs: seq<Entry<V>>, pattern: Text)
    ensures Fitting(es + fs, pattern) == Fitting(es, pattern) + Fitting(fs, pattern)
  {
    hide Fits;
    if es == [] {
      assert es + fs == fs;
    } else {
      assert (es + fs)[1..] == es[1..] + fs;
      FittingSplit(es[1..], fs, pattern);
      var first := if Fits(es[0].name, pattern) then [es[0].value] else [];
      assert first + (Fitting(es[1..], pattern) + Fitting(fs, pattern)) == first + Fitting(es[1..], pattern) + Fitting(fs, pattern);
    }
  }

  /** `find_packages()` and `find_elements()`. */
  method Find<V>(es: seq<Entry<V>>, pattern: Text) returns (found: seq<V>)
    ensures found == Fitting(es, pattern)
  {
    hide Matches;
    found := [];
    var i := 0;
    while i < |es|
      invariant 0 <= i <= |es| && found == Fitting(es[..i], pattern)
    {
      var fits := MatchPattern(es[i].name, pattern);
      assert es[..i + 1] == es[..i] + [es[i]] && [es[i]][1..] == [];
      FittingSplit(es[..i], [es[i]], pattern);
      if fits {
        found := found + [es[i].value];
      }
      i := i + 1;
    }
    assert es[..i] == es;
  }

  /** The search finds an entry exactly when its name fits, and keeps the order: `at` gives the
      place of each result among the entries, here of those from `i` on. */
  lemma {:induction false} FindsExactly<V>(es: seq<Entry<V>>, i: nat, pattern: Text) returns (at: seq<nat>)
    requires i <= |es|
    ensures |at| == |Fitting(es[i..], pattern)|
    ensures forall k :: 0 <= k < |at| ==>
      i <= at[k] < |es| && Fits(es[at[k]].name, pattern) && Fitting(es[i..], pattern)[k] == es[at[k]].value
    ensures forall j, k :: 0 <= j < k < |at| ==> at[j] < at[k]
    ensures forall j :: i <= j < |es| && Fits(es[j].name, pattern) ==> j in at
    decreases |es| - i
  {
    hide Fits;
    if i == |es| {
      at := [];
    } else {
      var more := FindsExactly(es, i + 1, pattern);
      assert es[i..][0] == es[i] && es[i..][1..] == es[i + 1..];
      at := (if Fits(es[i].name, pattern) then [i] else []) + more;
    }
  }
}
