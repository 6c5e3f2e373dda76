/**
 * The string primitives the core relies on: Python's `str.strip()` and
 * `str.lower()`, and the byte-wise order SQLite uses to compare TEXT values.
 */
module Text {

  /** Python's `str.isspace()` on one character. */
  predicate IsSpace(c: char)
  {
    || c == ' '
    || ('\t' <= c <= '\r')
    || ('\U{1c}' <= c <= '\U{1f}')
    || c == '\U{85}' || c == '\U{a0}' || c == '\U{1680}'
    || ('\U{2000}' <= c <= '\U{200a}')
    || c == '\U{2028}' || c == '\U{2029}' || c == '\U{202f}' || c == '\U{205f}' || c == '\U{3000}'
  }

  /** Every character of `s[lo..hi]` is whitespace. */
  ghost predicate SpaceBetween(s: string, lo: int, hi: int)
  {
    forall k :: lo <= k < hi && 0 <= k < |s| ==> IsSpace(s[k])
  }

  ghost predicate AllSpace(s: string)
  {
    SpaceBetween(s, 0, |s|)
  }

  /** Neither end of `s` is whitespace. */
  predicate IsStripped(s: string)
  {
    s == [] || (!IsSpace(s[0]) && !IsSpace(s[|s| - 1]))
  }

  /** `s` is `r` placed at index `i`, with only whitespace before and after it. */
  ghost predicate PaddedAt(s: string, r: string, i: int)
  {
    0 <= i <= |s| - |r| && s[i..i + |r|] == r && SpaceBetween(s, 0, i) && SpaceBetween(s, i + |r|, |s|)
  }

  /** `s` is `r` with whitespace added on both sides. */
  ghost predicate PaddedBy(s: string, r: string)
  {
    exists i :: PaddedAt(s, r, i)
  }

  /** Where `str.lstrip()` stops scanning forward from `i`: the first non-whitespace index. */
  function SkipSpace(s: string, i: nat): (j: nat)
    requires i <= |s|
    ensures i <= j <= |s|
    decreases |s| - i
  {
    if i < |s| && IsSpace(s[i]) then SkipSpace(s, i + 1) else i
  }

  /** Where `str.rstrip()` stops scanning back from `j` (not below `lo`). */
  function SkipSpaceBack(s: string, lo: nat, j: nat): (k: nat)
    requires lo <= j <= |s|
    ensures lo <= k <= j
  {
    if lo < j && IsSpace(s[j - 1]) then SkipSpaceBack(s, lo, j - 1) else j
  }

  lemma {:induction false} SkipSpaceSpec(s: string, i: nat)
    requires i <= |s|
    ensures SpaceBetween(s, i, SkipSpace(s, i))
    ensures SkipSpace(s, i) == |s| || !IsSpace(s[SkipSpace(s, i)])
    decreases |s| - i
  {
    if i < |s| && IsSpace(s[i]) {
      SkipSpaceSpec(s, i + 1);
    }
  }

  lemma {:induction false} SkipSpaceBackSpec(s: string, lo: nat, j: nat)
    requires lo <= j <= |s|
    ensures SpaceBetween(s, SkipSpaceBack(s, lo, j), j)
    ensures SkipSpaceBack(s, lo, j) == lo || !IsSpace(s[SkipSpaceBack(s, lo, j) - 1])
  {
    if lo < j && IsSpace(s[j - 1]) {
      SkipSpaceBackSpec(s, lo, j - 1);
    }
  }

  /** Python's `str.strip()`: the infix of `s` left after removing whitespace at both ends. */
  function Strip(s: string): string
  {
    var i := SkipSpace(s, 0);
    s[i..SkipSpaceBack(s, i, |s|)]
  }

  /** `Strip(s)` has no whitespace at either end and is `s` less whitespace on both sides. */
  lemma StripSpec(s: string)
    ensures IsStripped(Strip(s)) && PaddedBy(s, Strip(s))
  {
    var i := SkipSpace(s, 0);
    var j := SkipSpaceBack(s, i, |s|);
    SkipSpaceSpec(s, 0);
    SkipSpaceBackSpec(s, i, |s|);
    assert PaddedAt(s, Strip(s), i);
  }

  /** Stripping has exactly one possible outcome: any stripped infix with whitespace padding is `Strip(s)`. */
  lemma StripUnique(s: string, r: string)
    requires IsStripped(r) && PaddedBy(s, r)
    ensures r == Strip(s)
  {
    var r' := Strip(s);
    StripSpec(s);
    var i :| PaddedAt(s, r, i);
    var i' :| PaddedAt(s, r', i');
    if r != [] {
      assert s[i] == r[0];
    }
    if r' != [] {
      assert s[i'] == r'[0];
    }
    if r != [] && r' != [] {
      assert i == i';
      assert s[i + |r| - 1] == r[|r| - 1];
      assert s[i' + |r'| - 1] == r'[|r'| - 1];
      assert |r| == |r'|;
    }
  }

  lemma StripIdempotent(s: string)
    ensures Strip(Strip(s)) == Strip(s)
  {
    var r := Strip(s);
    StripSpec(s);
    assert PaddedAt(r, r, 0);
    StripUnique(r, r);
  }

  /** Whitespace added around a string does not change what it strips to. */
  lemma StripIgnoresPadding(p: string, s: string, q: string)
    requires AllSpace(p) && AllSpace(q)
    ensures Strip(p + s + q) == Strip(s)
  {
    var r := Strip(s);
    StripSpec(s);
    var t := p + s + q;
    var i :| PaddedAt(s, r, i);
    var j := |p| + i;
    assert t[j..j + |r|] == s[i..i + |r|];
    assert SpaceBetween(t, 0, j) by {
      forall k | 0 <= k < j ensures IsSpace(t[k]) {
        if k >= |p| { assert t[k] == s[k - |p|]; }
      }
    }
    assert SpaceBetween(t, j + |r|, |t|) by {
      forall k | j + |r| <= k < |t| ensures IsSpace(t[k]) {
        if k < |p| + |s| { assert t[k] == s[k - |p|]; } else { assert t[k] == q[k - |p| - |s|]; }
      }
    }
    assert PaddedAt(t, r, j);
    StripUnique(t, r);
  }

  /** Python's `str.lower()` on one character; only ASCII letters are mapped. */
  function LowerChar(c: char): char
  {
    if 'A' <= c <= 'Z' then (c as int + 32) as char else c
  }

  /** Python's `str.lower()`, restricted to ASCII case mapping. */
  function Lower(s: string): (r: string)
    ensures |r| == |s|
  {
    seq(|s|, i requires 0 <= i < |s| => LowerChar(s[i]))
  }

  lemma LowerIdempotent(s: string)
    ensures Lower(Lower(s)) == Lower(s)
  {
  }

  /** Lower-casing never creates or removes whitespace, so it commutes with stripping. */
  lemma LowerCharKeepsSpace(c: char)
    ensures IsSpace(LowerChar(c)) == IsSpace(c)
  {
  }

  /** Lower-casing a padded, stripped string keeps it padded and stripped at the same place. */
  lemma LowerKeepsPadding(s: string, r: string, i: int)
    requires PaddedAt(s, r, i) && IsStripped(r)
    ensures PaddedAt(Lower(s), Lower(r), i) && IsStripped(Lower(r))
  {
    var ls, lr := Lower(s), Lower(r);
    assert forall k :: 0 <= k < |r| ==> ls[i + k] == lr[k];
    assert ls[i..i + |r|] == lr;
    forall k | 0 <= k < |s| ensures IsSpace(ls[k]) == IsSpace(s[k]) {
      LowerCharKeepsSpace(s[k]);
    }
    if r != [] {
      LowerCharKeepsSpace(r[0]);
      LowerCharKeepsSpace(r[|r| - 1]);
    }
  }

  lemma LowerStripCommute(s: string)
    ensures Lower(Strip(s)) == Strip(Lower(s))
  {
    var r := Strip(s);
    StripSpec(s);
    var i :| PaddedAt(s, r, i);
    LowerKeepsPadding(s, r, i);
    StripUnique(Lower(s), Lower(r));
  }

  /** The title key of the reconciliation: `title.strip().lower()`. */
  function Normalize(t: string): string
  {
    Lower(Strip(t))
  }

  /**
   * Two titles with the same lower-case form, padded with any whitespace,
   * normalise to the same key.
   */
  lemma NormalizeIgnoresCaseAndPadding(p: string, a: string, q: string, b: string)
    requires AllSpace(p) && AllSpace(q) && Lower(a) == Lower(b)
    ensures Normalize(p + a + q) == Normalize(b)
  {
    StripIgnoresPadding(p, a, q);
    LowerStripCommute(a);
    LowerStripCommute(b);
  }

  lemma NormalizeIdempotent(t: string)
    ensures Normalize(Normalize(t)) == Normalize(t)
  {
    LowerStripCommute(Strip(t));
    StripIdempotent(t);
    LowerIdempotent(Strip(t));
  }

  /**
   * The order SQLite's default BINARY collation gives TEXT values (and Python's
   * `<=` on `str`): character by character, a proper prefix first. Comparing
   * code points is the same as comparing UTF-8 bytes.
   */
  predicate LexLe(a: string, b: string)
    decreases |a|
  {
    a == [] || (b != [] && (a[0] < b[0] || (a[0] == b[0] && LexLe(a[1..], b[1..]))))
  }

  lemma {:induction false} LexLeTotal(a: string, b: string)
    ensures LexLe(a, b) || LexLe(b, a)
    decreases |a|
  {
    if a != [] && b != [] && a[0] == b[0] {
      LexLeTotal(a[1..], b[1..]);
    }
  }

  lemma {:induction false} LexLeTransitive(a: string, b: string, c: string)
    requires LexLe(a, b) && LexLe(b, c)
    ensures LexLe(a, c)
    decreases |a|
  {
    if a != [] && a[0] == b[0] && b[0] == c[0] {
      LexLeTransitive(a[1..], b[1..], c[1..]);
    }
  }

  lemma {:induction false} LexLeAntisymmetric(a: string, b: string)
    requires LexLe(a, b) && LexLe(b, a)
    ensures a == b
    decreases |a|
  {
    if a != [] {
      LexLeAntisymmetric(a[1..], b[1..]);
      assert a == [a[0]] + a[1..] && b == [b[0]] + b[1..];
    }
  }

  /** Number of occurrences of `c` in `s` (Python's `s.count(c)`). */
  function Count(s: string, c: char): (n: nat)
    ensures n <= |s|
  {
    if s == [] then 0 else (if s[0] == c then 1 else 0) + Count(s[1..], c)
  }

  lemma {:induction false} CountConcat(a: string, b: string, c: char)
    ensures Count(a + b, c) == Count(a, c) + Count(b, c)
  {
    if a != [] {
      assert (a + b)[0] == a[0];
      assert (a + b)[1..] == a[1..] + b;
      CountConcat(a[1..], b, c);
    } else {
      assert a + b == b;
    }
  }
}
