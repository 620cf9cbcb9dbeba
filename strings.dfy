/** Text primitives the classifiers are built on: ASCII lower-casing,
    substring containment, Python's `str.strip()` and splitting on a set of
    separator characters. */
module Strings {

  /** ASCII lower-casing of one character; every other character is kept. */
  function LowerChar(c: char): char {
    if 'A' <= c <= 'Z' then (c as int + 32) as char else c
  }

  predicate IsUpper(c: char) {
    'A' <= c <= 'Z'
  }

  /** `s.lower()`, restricted to ASCII letters. */
  function Lower(s: string): (r: string)
    ensures |r| == |s|
    ensures forall i :: 0 <= i < |s| ==> r[i] == LowerChar(s[i])
  {
    if s == [] then [] else [LowerChar(s[0])] + Lower(s[1..])
  }

  lemma LowerIdempotent(s: string)
    ensures Lower(Lower(s)) == Lower(s)
  {
    var once := Lower(s);
    assert forall i :: 0 <= i < |s| ==> LowerChar(once[i]) == once[i];
  }

  /** Text without upper-case ASCII letters is its own lower-case form. */
  lemma LowerOfLowerCase(s: string)
    requires forall i :: 0 <= i < |s| ==> !IsUpper(s[i])
    ensures Lower(s) == s
  {
  }

  lemma AppendAssoc<T>(a: seq<T>, b: seq<T>, c: seq<T>)
    ensures a + (b + c) == a + b + c
  {
  }

  /** `k` occurs in `s` at position `i`. */
  predicate At(s: string, i: int, k: string) {
    0 <= i && i + |k| <= |s| && s[i..i + |k|] == k
  }

  /** Python's `k in s` on strings: `k` is a substring of `s`. */
  predicate Contains(s: string, k: string) {
    exists i :: 0 <= i <= |s| && At(s, i, k)
  }

  /** `any(k in s for k in keys)`. */
  predicate ContainsAny(s: string, keys: seq<string>) {
    exists j :: 0 <= j < |keys| && Contains(s, keys[j])
  }

  lemma AtShift(s: string, t: string, k: string, i: int, j: int)
    requires At(s, i, t) && At(t, j, k)
    ensures At(s, i + j, k)
  {
    var u := s[i..i + |t|];
    assert forall m :: 0 <= m < |k| ==> s[i + j + m] == u[j + m] == k[m];
    assert s[i + j..i + j + |k|] == k;
  }

  /** Containment is transitive: a keyword that contains another keyword
      makes the shorter one redundant in a keyword table. */
  lemma ContainsTransitive(s: string, t: string, k: string)
    requires Contains(s, t) && Contains(t, k)
    ensures Contains(s, k)
  {
    var i :| At(s, i, t);
    var j :| At(t, j, k);
    AtShift(s, t, k, i, j);
  }

  /** Python's `str.isspace()` for a single character. */
  predicate IsSpace(c: char) {
    ('\t' <= c <= '\r') || ('\U{1c}' <= c <= ' ') || c == '\U{85}' || c == '\U{a0}'
    || c == '\U{1680}' || ('\U{2000}' <= c <= '\U{200a}') || c == '\U{2028}' || c == '\U{2029}'
    || c == '\U{202f}' || c == '\U{205f}' || c == '\U{3000}'
  }

  predicate AllSpace(s: string) {
    forall i :: 0 <= i < |s| ==> IsSpace(s[i])
  }

  /** A string that `strip()` leaves unchanged. */
  predicate IsStripped(s: string) {
    s == [] || (!IsSpace(s[0]) && !IsSpace(s[|s| - 1]))
  }

  /** First position at or after `i` that does not hold whitespace. */
  function SkipSpaces(s: string, i: nat): (k: nat)
    requires i <= |s|
    ensures i <= k <= |s|
    ensures AllSpace(s[i..k])
    ensures k < |s| ==> !IsSpace(s[k])
    decreases |s| - i
  {
    if i < |s| && IsSpace(s[i]) then SkipSpaces(s, i + 1) else i
  }

  /** Last end position at or before `j`, no lower than `lo`, such that the
      text between it and `j` is whitespace. */
  function TrimSpaces(s: string, lo: nat, j: nat): (k: nat)
    requires lo <= j <= |s|
    ensures lo <= k <= j
    ensures AllSpace(s[k..j])
    ensures k > lo ==> !IsSpace(s[k - 1])
    decreases j - lo
  {
    if lo < j && IsSpace(s[j - 1]) then
      var k := TrimSpaces(s, lo, j - 1);
      assert s[k..j] == s[k..j - 1] + [s[j - 1]];
      k
    else j
  }

  /** Python's `s.strip()`: the longest middle slice of `s` whose first and last
      characters are not whitespace, everything cut away being whitespace. */
  function Strip(s: string): (r: string)
    ensures IsStripped(r)
    ensures exists i, j :: 0 <= i <= j <= |s| && r == s[i..j] && AllSpace(s[..i]) && AllSpace(s[j..])
    ensures r == [] <==> AllSpace(s)
  {
    var i := SkipSpaces(s, 0);
    var j := TrimSpaces(s, i, |s|);
    assert s[..i] == s[0..i];
    assert s[j..] == s[j..|s|];
    if i == |s| then
      assert AllSpace(s) by {
        assert s == s[0..i];
      }
      assert [] == s[i..j];
      []
    else
      assert !IsSpace(s[i]);
      assert j > i by {
        assert s[i..|s|][0] == s[i];
      }
      assert !IsSpace(s[j - 1]);
      var r := s[i..j];
      assert r[0] == s[i] && r[|r| - 1] == s[j - 1];
      s[i..j]
  }

  lemma StripOfStripped(s: string)
    requires IsStripped(s)
    ensures Strip(s) == s
  {
  }

  /** Whitespace around stripped, non-blank text is exactly what `strip()`
      removes. */
  lemma StripPadded(before: string, p: string, after: string)
    requires AllSpace(before) && AllSpace(after)
    requires p != [] && IsStripped(p)
    ensures Strip(before + p + after) == p
  {
    var s := before + p + after;
    var a, e := |before|, |before| + |p|;
    assert s[..a] == before;
    assert s[e..] == after;
    assert s[a] == p[0] && s[e - 1] == p[|p| - 1];
    assert s[a..e] == p;
    StripWithin(s, a, e);
  }

  /** When `s[a..e]` starts and ends with non-whitespace and only whitespace
      lies outside it, that slice is what `strip()` keeps. */
  lemma StripWithin(s: string, a: nat, e: nat)
    requires a < e <= |s|
    requires AllSpace(s[..a]) && AllSpace(s[e..]) && !IsSpace(s[a]) && !IsSpace(s[e - 1])
    ensures Strip(s) == s[a..e]
  {
    NotAllSpace(s, a);
    var i, j :| 0 <= i <= j <= |s| && Strip(s) == s[i..j] && AllSpace(s[..i]) && AllSpace(s[j..]);
    SameSlice(s, a, e, i, j, Strip(s));
  }

  lemma NotAllSpace(s: string, a: nat)
    requires a < |s| && !IsSpace(s[a])
    ensures !AllSpace(s)
  {
  }

  /** Two such slices, one of them stripped and non-empty, are the same. */
  lemma SameSlice(s: string, a: nat, e: nat, i: nat, j: nat, r: string)
    requires a < e <= |s|
    requires AllSpace(s[..a]) && AllSpace(s[e..]) && !IsSpace(s[a]) && !IsSpace(s[e - 1])
    requires i <= j <= |s| && r == s[i..j] && AllSpace(s[..i]) && AllSpace(s[j..])
    requires IsStripped(r) && r != []
    ensures i == a && j == e
  {
    assert !IsSpace(s[i]) by {
      assert r[0] == s[i];
    }
    assert !IsSpace(s[j - 1]) by {
      assert r[|r| - 1] == s[j - 1];
    }
    StartBound(s, a, i);
    StartBound(s, i, a);
    EndBound(s, e, j);
    EndBound(s, j, e);
  }

  lemma StartBound(s: string, a: nat, i: nat)
    requires a < |s| && i <= |s|
    requires !IsSpace(s[a]) && AllSpace(s[..i])
    ensures a >= i
  {
  }

  lemma EndBound(s: string, e: nat, j: nat)
    requires 0 < e <= |s| && j <= |s|
    requires !IsSpace(s[e - 1]) && AllSpace(s[j..])
    ensures e <= j
  {
  }

  predicate NoSep(p: string, seps: set<char>) {
    forall i :: 0 <= i < |p| ==> p[i] !in seps
  }

  /** Splits `s` at every character of `seps`, as `re.split("[...]", s)` does:
      n separators give n + 1 pieces, some of which may be empty. */
  function Split(s: string, seps: set<char>): (r: seq<string>)
    ensures |r| >= 1
    ensures forall i :: 0 <= i < |r| ==> NoSep(r[i], seps)
    decreases |s|
  {
    if s == [] then [[]]
    else
      var rest := Split(s[1..], seps);
      if s[0] in seps then [[]] + rest
      else [[s[0]] + rest[0]] + rest[1..]
  }

  /** The separator characters of `s`, in order. */
  function Separators(s: string, seps: set<char>): (r: string)
    ensures forall i :: 0 <= i < |r| ==> r[i] in seps
    decreases |s|
  {
    if s == [] then []
    else if s[0] in seps then [s[0]] + Separators(s[1..], seps)
    else Separators(s[1..], seps)
  }

  /** Re-assembles pieces, putting `between[i]` after `pieces[i]`. */
  function Join(pieces: seq<string>, between: string): string
    requires |pieces| == |between| + 1
    decreases |between|
  {
    if between == [] then pieces[0]
    else pieces[0] + [between[0]] + Join(pieces[1..], between[1..])
  }

  lemma JoinExtendsFirst(x: string, pieces: seq<string>, between: string)
    requires |pieces| == |between| + 1
    ensures Join([x + pieces[0]] + pieces[1..], between) == x + Join(pieces, between)
  {
    var ps := [x + pieces[0]] + pieces[1..];
    if between != [] {
      assert ps[1..] == pieces[1..];
    }
  }

  /** Splitting loses nothing: the pieces and the separators rebuild `s`. */
  lemma {:induction false} SplitJoin(s: string, seps: set<char>)
    ensures |Split(s, seps)| == |Separators(s, seps)| + 1
    ensures Join(Split(s, seps), Separators(s, seps)) == s
    decreases |s|
  {
    if s != [] {
      SplitJoin(s[1..], seps);
      var rest := Split(s[1..], seps);
      var bs := Separators(s[1..], seps);
      if s[0] in seps {
        var ps := [[]] + rest;
        assert ps[1..] == rest;
        assert Join(ps, [s[0]] + bs) == [] + [s[0]] + Join(rest, bs);
        assert ([s[0]] + bs)[1..] == bs;
      } else {
        JoinExtendsFirst([s[0]], rest, bs);
      }
    }
  }

  /** A separator-free prefix is glued onto the first piece. */
  lemma {:induction false} SplitPrefix(a: string, t: string, seps: set<char>)
    requires NoSep(a, seps)
    ensures Split(a + t, seps) == [a + Split(t, seps)[0]] + Split(t, seps)[1..]
    decreases |a|
  {
    if a != [] {
      assert (a + t)[0] == a[0];
      assert (a + t)[1..] == a[1..] + t;
      SplitPrefix(a[1..], t, seps);
      assert [a[0]] + (a[1..] + Split(t, seps)[0]) == a + Split(t, seps)[0];
    } else {
      var r := Split(t, seps);
      assert a + t == t;
      assert a + r[0] == r[0];
      assert [r[0]] + r[1..] == r;
    }
  }

  /** Splitting is the inverse of joining separator-free pieces with
      separator characters. */
  lemma {:induction false} SplitOfJoin(pieces: seq<string>, between: string, seps: set<char>)
    requires |pieces| == |between| + 1
    requires forall i :: 0 <= i < |pieces| ==> NoSep(pieces[i], seps)
    requires forall i :: 0 <= i < |between| ==> between[i] in seps
    ensures Split(Join(pieces, between), seps) == pieces
    decreases |between|
  {
    if between == [] {
      SplitPrefix(pieces[0], [], seps);
      assert pieces[0] + [] == pieces[0];
    } else {
      var tail := Join(pieces[1..], between[1..]);
      SplitOfJoin(pieces[1..], between[1..], seps);
      var rest := [between[0]] + tail;
      assert rest[0] in seps;
      assert rest[1..] == tail;
      SplitPrefix(pieces[0], rest, seps);
      assert pieces[0] + [between[0]] + tail == pieces[0] + rest;
      assert pieces[0] + [] == pieces[0];
      assert [pieces[0]] + pieces[1..] == pieces;
    }
  }
}
