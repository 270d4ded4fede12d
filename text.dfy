/** String helpers shared by the model: the lexicographic order in which
    Python compares `str` values and SQLite compares TEXT (code point by code
    point; UTF-8 byte order agrees with code point order), `str.strip()`, and
    the lower-casing needed to test a file suffix. */
module Text {

  /** `a <= b` on strings: compare the first differing character; a proper
      prefix comes first. */
  predicate LexLe(a: string, b: string)
    decreases |a|
  {
    if a == [] then true
    else if b == [] then false
    else if a[0] != b[0] then a[0] < b[0]
    else LexLe(a[1..], b[1..])
  }

  /** `a < b` on strings. */
  predicate LexLt(a: string, b: string)
  {
    LexLe(a, b) && a != b
  }

  lemma {:induction false} LexLeReflexive(a: string)
    ensures LexLe(a, a)
    decreases |a|
  {
    if a != [] {
      LexLeReflexive(a[1..]);
    }
  }

  lemma {:induction false} LexLeTotal(a: string, b: string)
    ensures LexLe(a, b) || LexLe(b, a)
    decreases |a|
  {
    if a != [] && b != [] && a[0] == b[0] {
      LexLeTotal(a[1..], b[1..]);
    }
  }

  lemma {:induction false} LexLeAntisymmetric(a: string, b: string)
    requires LexLe(a, b) && LexLe(b, a)
    ensures a == b
    decreases |a|
  {
    if a != [] && b != [] {
      LexLeAntisymmetric(a[1..], b[1..]);
      assert a == [a[0]] + a[1..] && b == [b[0]] + b[1..];
    }
  }

  lemma {:induction false} LexLeTransitive(a: string, b: string, c: string)
    requires LexLe(a, b) && LexLe(b, c)
    ensures LexLe(a, c)
    decreases |a|
  {
    if a != [] && b != [] && c != [] && a[0] == b[0] && b[0] == c[0] {
      LexLeTransitive(a[1..], b[1..], c[1..]);
    }
  }

  /** The characters for which Python's `str.isspace()` is true. */
  predicate IsSpace(c: char)
  {
    ('\U{0009}' <= c <= '\U{000D}') || ('\U{001C}' <= c <= '\U{0020}')
    || c == '\U{0085}' || c == '\U{00A0}' || c == '\U{1680}'
    || ('\U{2000}' <= c <= '\U{200A}') || c == '\U{2028}' || c == '\U{2029}'
    || c == '\U{202F}' || c == '\U{205F}' || c == '\U{3000}'
  }

  function TrimStart(s: string): (r: string)
    ensures |r| <= |s| && r == s[|s| - |r|..]
    ensures r == [] || !IsSpace(r[0])
    ensures forall k :: 0 <= k < |s| - |r| ==> IsSpace(s[k])
  {
    if s != [] && IsSpace(s[0]) then TrimStart(s[1..]) else s
  }

  function TrimEnd(s: string): (r: string)
    ensures |r| <= |s| && r == s[..|r|]
    ensures r == [] || !IsSpace(r[|r| - 1])
    ensures forall k :: |r| <= k < |s| ==> IsSpace(s[k])
  {
    if s != [] && IsSpace(s[|s| - 1]) then TrimEnd(s[..|s| - 1]) else s
  }

  /** Neither end of `r` is whitespace. */
  predicate Trimmed(r: string)
  {
    r == [] || (!IsSpace(r[0]) && !IsSpace(r[|r| - 1]))
  }

  /** `r` is `s` with some whitespace, and only whitespace, removed from
      either end. */
  ghost predicate StrippedFrom(r: string, s: string)
  {
    exists i, j :: 0 <= i <= j <= |s| && r == s[i..j] && Surrounding(s, i, j)
  }

  /** Everything of `s` outside `s[i..j]` is whitespace. */
  ghost predicate Surrounding(s: string, i: nat, j: nat)
    requires i <= j <= |s|
  {
    forall k :: 0 <= k < |s| && (k < i || j <= k) ==> IsSpace(s[k])
  }

  /** `s.strip()`: the slice of `s` left after removing leading and trailing
      whitespace. */
  function Strip(s: string): (r: string)
    ensures Trimmed(r) && StrippedFrom(r, s)
  {
    var t := TrimStart(s);
    var r := TrimEnd(t);
    StripSlice(s, t, r);
    StripTrimmed(t, r);
    r
  }

  lemma StripTrimmed(t: string, r: string)
    requires t == [] || !IsSpace(t[0])
    requires |r| <= |t| && r == t[..|r|] && (r == [] || !IsSpace(r[|r| - 1]))
    ensures Trimmed(r)
  {
    assert r != [] ==> r[0] == t[0];
  }

  /** Cutting whitespace off the front, then off the back, leaves a slice
      surrounded by whitespace. */
  lemma StripSlice(s: string, t: string, r: string)
    requires |t| <= |s| && t == s[|s| - |t|..] && (forall k :: 0 <= k < |s| - |t| ==> IsSpace(s[k]))
    requires |r| <= |t| && r == t[..|r|] && (forall k :: |r| <= k < |t| ==> IsSpace(t[k]))
    ensures StrippedFrom(r, s)
  {
    var i := |s| - |t|;
    PrefixOfSuffix(s, i, |r|);
    forall k | i + |r| <= k < |s|
      ensures IsSpace(s[k])
    {
      assert s[k] == t[k - i];
    }
    assert Surrounding(s, i, i + |r|);
  }

  /** A trimmed piece cut out of whitespace is the stripped string: `strip()`
      is characterised by the two properties of its result. */
  lemma StripUnique(r: string, s: string)
    requires Trimmed(r) && StrippedFrom(r, s)
    ensures r == Strip(s)
  {
    var i, j :| 0 <= i <= j <= |s| && r == s[i..j] && Surrounding(s, i, j);
    var t := Strip(s);
    var i0, j0 :| 0 <= i0 <= j0 <= |s| && t == s[i0..j0] && Surrounding(s, i0, j0);
    EmptyExactlyWhenAllSpace(s, i, j);
    EmptyExactlyWhenAllSpace(s, i0, j0);
    if i < j && i0 < j0 {
      SameBounds(s, i, j, i0, j0);
    }
  }

  ghost predicate AllSpace(s: string)
  {
    forall k :: 0 <= k < |s| ==> IsSpace(s[k])
  }

  /** A trimmed piece cut out of whitespace is empty exactly when the whole
      string is whitespace. */
  lemma EmptyExactlyWhenAllSpace(s: string, i: nat, j: nat)
    requires i <= j <= |s| && Surrounding(s, i, j) && Trimmed(s[i..j])
    ensures i == j <==> AllSpace(s)
  {
    if i < j {
      assert s[i] == s[i..j][0];
    }
  }

  /** Two non-empty trimmed pieces cut out of whitespace have the same
      bounds. */
  lemma SameBounds(s: string, i: nat, j: nat, i0: nat, j0: nat)
    requires i < j <= |s| && i0 < j0 <= |s|
    requires Surrounding(s, i, j) && Surrounding(s, i0, j0)
    requires Trimmed(s[i..j]) && Trimmed(s[i0..j0])
    ensures i == i0 && j == j0
  {
    assert !IsSpace(s[i]) by { assert s[i] == s[i..j][0]; }
    assert !IsSpace(s[i0]) by { assert s[i0] == s[i0..j0][0]; }
    assert !IsSpace(s[j - 1]) by { assert s[j - 1] == s[i..j][j - 1 - i]; }
    assert !IsSpace(s[j0 - 1]) by { assert s[j0 - 1] == s[i0..j0][j0 - 1 - i0]; }
  }

  /** A prefix of a suffix is a slice. */
  lemma PrefixOfSuffix(s: string, i: nat, n: nat)
    requires i + n <= |s|
    ensures s[i..][..n] == s[i..i + n]
  {
  }

  /** Lower-casing of the letters `A`..`Z`; every other character is kept. */
  function AsciiLower(c: char): char
  {
    if 'A' <= c <= 'Z' then (c as int + 32) as char else c
  }

  function LowerAscii(s: string): (r: string)
    ensures |r| == |s|
    ensures forall k :: 0 <= k < |s| ==> r[k] == AsciiLower(s[k])
  {
    if s == [] then [] else [AsciiLower(s[0])] + LowerAscii(s[1..])
  }
}
