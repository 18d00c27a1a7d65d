/** String primitives that the JavaScript sources rely on: white space as `\s`
    and `String.prototype.trim` see it, ASCII lower-casing, prefix and
    substring tests, and `String.prototype.split` on a single character. */
module Strings {
  import opened Wrappers

  /** JavaScript truthiness of a string value that may be missing
      (`undefined` or `null`): present and not empty. */
  predicate Truthy(v: Option<string>) {
    v.Some? && v.value != ""
  }

  /** The characters of the JavaScript `\s` class, which `trim` also removes. */
  predicate IsSpace(c: char) {
    || c == ' ' || c == '\t' || c == '\n' || c == '\r' || c == '\U{000B}' || c == '\U{000C}'
    || c == '\U{00A0}' || c == '\U{1680}' || ('\U{2000}' <= c <= '\U{200A}')
    || c == '\U{2028}' || c == '\U{2029}' || c == '\U{202F}' || c == '\U{205F}'
    || c == '\U{3000}' || c == '\U{FEFF}'
  }

  predicate NoSpace(s: string) {
    forall i :: 0 <= i < |s| ==> !IsSpace(s[i])
  }

  /** The first index at or after `i` that does not hold white space. */
  function SkipSpace(s: string, i: nat): (j: nat)
    requires i <= |s|
    ensures i <= j <= |s|
    ensures forall k :: i <= k < j ==> IsSpace(s[k])
    ensures j == |s| || !IsSpace(s[j])
    decreases |s| - i
  {
    if i < |s| && IsSpace(s[i]) then SkipSpace(s, i + 1) else i
  }

  /** The start of the run of white space that ends at `j`, not going below `lo`. */
  function SkipSpaceBack(s: string, lo: nat, j: nat): (m: nat)
    requires lo <= j <= |s|
    ensures lo <= m <= j
    ensures forall k :: m <= k < j ==> IsSpace(s[k])
    ensures m == lo || !IsSpace(s[m - 1])
  {
    if j > lo && IsSpace(s[j - 1]) then SkipSpaceBack(s, lo, j - 1) else j
  }

  /** `r` is the slice of `s` at offset `i`, and `s` holds only white space
      outside it. */
  predicate TrimmedAt(s: string, r: string, i: nat) {
    && i + |r| <= |s| && r == s[i..i + |r|]
    && (forall k :: 0 <= k < i ==> IsSpace(s[k]))
    && (forall k :: i + |r| <= k < |s| ==> IsSpace(s[k]))
  }

  /** `s.trim()`: the result is a slice of `s`, it neither starts nor ends
      with white space, and everything cut off is white space. */
  function Trim(s: string): (r: string)
    ensures exists i: nat :: TrimmedAt(s, r, i)
    ensures r == [] || (!IsSpace(r[0]) && !IsSpace(r[|r| - 1]))
  {
    var i := SkipSpace(s, 0);
    var j := SkipSpaceBack(s, i, |s|);
    assert TrimmedAt(s, s[i..j], i);
    s[i..j]
  }

  /** Trimming twice is trimming once. */
  lemma TrimIdempotent(s: string)
    ensures Trim(Trim(s)) == Trim(s)
  {
    var t := Trim(s);
    assert SkipSpace(t, 0) == 0;
    assert SkipSpaceBack(t, 0, |t|) == |t|;
    assert t[0..|t|] == t;
  }

  /** A string of white space trims to the empty string. */
  lemma TrimAllSpace(s: string)
    requires forall i :: 0 <= i < |s| ==> IsSpace(s[i])
    ensures Trim(s) == []
  {
  }

  function LowerChar(c: char): (d: char)
    ensures IsSpace(d) == IsSpace(c)
    ensures (d == '@') == (c == '@') && (d == '.') == (c == '.')
    ensures ('0' <= c <= '9') ==> d == c
  {
    if 'A' <= c <= 'Z' then (c as int + 32) as char else c
  }

  /** ASCII lower-casing, as `lowercase: true` applies it to Latin text. */
  function Lower(s: string): (r: string)
    ensures |r| == |s|
    ensures forall i :: 0 <= i < |s| ==> r[i] == LowerChar(s[i])
  {
    if s == [] then [] else [LowerChar(s[0])] + Lower(s[1..])
  }

  /** A string lower-cases to `t` when it does so character by character. */
  lemma LowerPointwise(s: string, t: string)
    requires |s| == |t| && forall i :: 0 <= i < |s| ==> LowerChar(s[i]) == t[i]
    ensures Lower(s) == t
  {
  }

  lemma LowerIdempotent(s: string)
    ensures Lower(Lower(s)) == Lower(s)
  {
    assert forall i :: 0 <= i < |s| ==> Lower(Lower(s))[i] == Lower(s)[i];
  }

  predicate IsPrefix(p: string, s: string) {
    |p| <= |s| && s[..|p|] == p
  }

  /** `s.startsWith(p)`. */
  predicate StartsWith(s: string, p: string) {
    IsPrefix(p, s)
  }

  /** `q` occurs in `s` as a contiguous run of characters. */
  predicate Contains(s: string, q: string)
    decreases |s|
  {
    IsPrefix(q, s) || (|s| > 0 && Contains(s[1..], q))
  }

  /** `q` starts at offset `i` of `s`. */
  predicate OccursAt(s: string, q: string, i: nat) {
    i + |q| <= |s| && s[i..i + |q|] == q
  }

  /** `Contains` is "there is an offset where `q` starts". */
  lemma {:induction false} ContainsAt(s: string, q: string)
    ensures Contains(s, q) <==> exists i: nat :: OccursAt(s, q, i)
  {
    if IsPrefix(q, s) {
      assert OccursAt(s, q, 0);
    } else if |s| > 0 {
      ContainsAt(s[1..], q);
      if Contains(s[1..], q) {
        var i: nat :| OccursAt(s[1..], q, i);
        assert OccursAt(s, q, i + 1);
      }
      if exists i: nat :: OccursAt(s, q, i) {
        var i: nat :| OccursAt(s, q, i);
        assert i > 0;
        assert OccursAt(s[1..], q, i - 1);
      }
    }
  }

  /** A witnessed occurrence is an occurrence. */
  lemma ContainsWitness(s: string, q: string, i: nat)
    requires OccursAt(s, q, i)
    ensures Contains(s, q)
  {
    ContainsAt(s, q);
  }

  /** Case-insensitive substring search, on ASCII letters. */
  predicate ContainsIgnoreCase(s: string, q: string) {
    Contains(Lower(s), Lower(q))
  }

  /** Joins `parts` with `sep` between neighbours. */
  function Join(parts: seq<string>, sep: char): string
    requires |parts| >= 1
  {
    if |parts| == 1 then parts[0] else parts[0] + [sep] + Join(parts[1..], sep)
  }

  /** `s.split(sep)` for a one-character separator: at least one piece, and
      no piece holds the separator. */
  function Split(s: string, sep: char): (r: seq<string>)
    ensures |r| >= 1
    ensures forall k :: 0 <= k < |r| ==> sep !in r[k]
    decreases |s|
  {
    if |s| == 0 then [""]
    else if s[0] == sep then [""] + Split(s[1..], sep)
    else
      var rest := Split(s[1..], sep);
      [[s[0]] + rest[0]] + rest[1..]
  }

  /** Joining the pieces with the separator gives the string back. */
  lemma {:induction false} SplitJoin(s: string, sep: char)
    ensures Join(Split(s, sep), sep) == s
    decreases |s|
  {
    if |s| > 0 {
      SplitJoin(s[1..], sep);
      var rest := Split(s[1..], sep);
      if s[0] == sep {
        assert ([""] + rest)[1..] == rest;
        assert s == [sep] + s[1..];
      } else {
        var r := [[s[0]] + rest[0]] + rest[1..];
        assert r[1..] == rest[1..];
        assert s == [s[0]] + s[1..];
        if |rest| > 1 {
          assert rest == [rest[0]] + rest[1..];
        }
      }
    }
  }

  /** A string free of the separator is a single piece. */
  lemma {:induction false} SplitNoSep(s: string, sep: char)
    requires sep !in s
    ensures Split(s, sep) == [s]
  {
    if |s| > 0 {
      assert sep !in s[1..];
      SplitNoSep(s[1..], sep);
      assert [s[0]] + s[1..] == s;
    }
  }

  /** Splitting `a + [sep] + b`, where `a` is free of the separator, yields
      `a` followed by the pieces of `b`. */
  lemma {:induction false} SplitAfter(a: string, sep: char, b: string)
    requires sep !in a
    ensures Split(a + [sep] + b, sep) == [a] + Split(b, sep)
  {
    var s := a + [sep] + b;
    if a == [] {
      assert s[1..] == b;
    } else {
      assert s[1..] == a[1..] + [sep] + b;
      assert sep !in a[1..];
      SplitAfter(a[1..], sep, b);
      assert [a[0]] + a[1..] == a;
    }
  }

  /** There is a second piece exactly when the separator occurs. */
  lemma {:induction false} SplitPiecesIff(s: string, sep: char)
    ensures |Split(s, sep)| >= 2 <==> sep in s
  {
    if |s| > 0 {
      SplitPiecesIff(s[1..], sep);
      assert s == [s[0]] + s[1..];
    }
  }

  /** The part of `s` before the first `c`, all of `s` when there is none. */
  function Before(s: string, c: char): (r: string)
    ensures c !in r && IsPrefix(r, s)
    ensures r == s || (|r| < |s| && s[|r|] == c)
  {
    if s == [] || s[0] == c then [] else [s[0]] + Before(s[1..], c)
  }

  /** A string without `c` is all before it. */
  lemma BeforeAbsent(s: string, c: char)
    requires c !in s
    ensures Before(s, c) == s
  {
  }

  /** The part of `s` after the first `c`, if there is one. */
  function After(s: string, c: char): (r: Option<string>)
    ensures r.Some? <==> c in s
    ensures r.Some? ==> s == Before(s, c) + [c] + r.value
  {
    if s == [] then None
    else if s[0] == c then
      assert s == [] + [c] + s[1..];
      Some(s[1..])
    else
      var rest := After(s[1..], c);
      assert s == [s[0]] + s[1..];
      rest
  }

  /** Cutting `a + [c] + b` at its first `c`, when `a` is free of it. */
  lemma {:induction false} CutAt(a: string, c: char, b: string)
    requires c !in a
    ensures Before(a + [c] + b, c) == a
    ensures After(a + [c] + b, c) == Some(b)
  {
    var s := a + [c] + b;
    if a != [] {
      assert s[1..] == a[1..] + [c] + b;
      assert c !in a[1..];
      CutAt(a[1..], c, b);
      assert [a[0]] + a[1..] == a;
    }
  }
}
