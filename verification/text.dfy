/**
 * Character-level helpers of the extractor: the whitespace class used by
 * `string.Trim`, `string.IsNullOrWhiteSpace` and the regex `\s`, the three
 * trims, and ordinal ignore-case comparison.
 */
module Text {

  /** `char.IsWhiteSpace`: the separators Zs, Zl, Zp plus U+0009..U+000D and U+0085.
      The same set is the `\s` class of .NET regular expressions. */
  predicate IsWhite(c: char) {
    var n := c as int;
    || (9 <= n <= 13) || n == 0x20 || n == 0x85 || n == 0xA0 || n == 0x1680
    || (0x2000 <= n <= 0x200A) || n == 0x2028 || n == 0x2029 || n == 0x202F
    || n == 0x205F || n == 0x3000
  }

  /** `string.IsNullOrWhiteSpace` for a non-null string. */
  predicate IsBlank(s: string) {
    forall i :: 0 <= i < |s| ==> IsWhite(s[i])
  }

  /** Neither end of `s` is whitespace: what every trim promises of its result. */
  predicate Trimmed(s: string) {
    s == [] || (!IsWhite(s[0]) && !IsWhite(s[|s| - 1]))
  }

  /** `r` is `s` with a blank prefix and a blank suffix cut off, and no more:
      the reference meaning of `string.Trim`. */
  ghost predicate IsTrimOf(r: string, s: string) {
    && Trimmed(r)
    && exists i, j :: 0 <= i <= j <= |s| && s[i..j] == r && IsBlank(s[..i]) && IsBlank(s[j..])
  }

  /** `string.TrimStart()`: drops the leading whitespace. */
  function TrimStart(s: string): (r: string)
    ensures |r| <= |s| && r == s[|s| - |r|..]
    ensures IsBlank(s[..|s| - |r|])
    ensures r == [] || !IsWhite(r[0])
  {
    if |s| > 0 && IsWhite(s[0]) then
      var r := TrimStart(s[1..]);
      BlankCons(s[0], s[1..][..|s| - 1 - |r|]);
      assert s[..|s| - |r|] == [s[0]] + s[1..][..|s| - 1 - |r|];
      r
    else
      s
  }

  /** `string.TrimEnd()`: drops the trailing whitespace. */
  function TrimEnd(s: string): (r: string)
    ensures |r| <= |s| && r == s[..|r|]
    ensures IsBlank(s[|r|..])
    ensures r == [] || !IsWhite(r[|r| - 1])
  {
    if |s| > 0 && IsWhite(s[|s| - 1]) then
      var r := TrimEnd(s[..|s| - 1]);
      BlankSnoc(s[..|s| - 1][|r|..], s[|s| - 1]);
      assert s[|r|..] == s[..|s| - 1][|r|..] + [s[|s| - 1]];
      r
    else
      s
  }

  /** A whitespace character in front of a blank string leaves it blank. */
  lemma {:induction false} BlankCons(c: char, s: string)
    requires IsWhite(c) && IsBlank(s)
    ensures IsBlank([c] + s)
  {
    forall k | 0 <= k < |[c] + s| ensures IsWhite(([c] + s)[k]) {
      if k > 0 { assert ([c] + s)[k] == s[k - 1]; }
    }
  }

  /** A whitespace character behind a blank string leaves it blank. */
  lemma {:induction false} BlankSnoc(s: string, c: char)
    requires IsWhite(c) && IsBlank(s)
    ensures IsBlank(s + [c])
  {
    forall k | 0 <= k < |s + [c]| ensures IsWhite((s + [c])[k]) {
      if k < |s| { assert (s + [c])[k] == s[k]; }
    }
  }

  /** `string.Trim()`: drops whitespace at both ends, keeping the interior untouched. */
  function Trim(s: string): (r: string)
    ensures |r| <= |s| && Trimmed(r)
    ensures r == [] <==> IsBlank(s)
  {
    TrimBoth(s);
    TrimEnd(TrimStart(s))
  }

  /** Trimming both ends leaves a trimmed string, and nothing exactly when the input is blank. */
  lemma {:induction false} TrimBoth(s: string)
    ensures |TrimEnd(TrimStart(s))| <= |s| && Trimmed(TrimEnd(TrimStart(s)))
    ensures TrimEnd(TrimStart(s)) == [] <==> IsBlank(s)
  {
    var t := TrimStart(s);
    var r := TrimEnd(t);
    if r == [] {
      assert s[..|s| - |t|] == s;
    } else {
      assert r[0] == t[0];
      assert s[|s| - |t|] == r[0];
    }
  }

  /** `Trim` meets its reference meaning: it cuts blank margins off its input and nothing else. */
  lemma {:induction false} TrimMeaning(s: string)
    ensures IsTrimOf(Trim(s), s)
  {
    var t := TrimStart(s);
    var r := TrimEnd(t);
    var i := |s| - |t|;
    var j := i + |r|;
    SlicesOfSuffix(s, i, |r|);
    assert IsBlank(s[..i]) && IsBlank(s[j..]) && Trimmed(r);
    assert Trim(s) == r;
  }

  /** Cutting a suffix of `s` at `n` is cutting `s` itself `n` further on. */
  lemma SlicesOfSuffix(s: string, i: nat, n: nat)
    requires i + n <= |s|
    ensures s[i..][..n] == s[i..i + n] && s[i..][n..] == s[i + n..]
  {
  }

  /** Cutting `s` at `i` and `j` leaves blank margins and a trimmed middle. */
  predicate IsCut(s: string, i: int, j: int) {
    0 <= i <= j <= |s| && IsBlank(s[..i]) && IsBlank(s[j..]) && Trimmed(s[i..j])
  }

  /** A cut that leaves nothing shows the whole input is blank. */
  lemma {:induction false} EmptyCutBlank(s: string, i: int)
    requires IsCut(s, i, i)
    ensures IsBlank(s)
  {
    forall k | 0 <= k < |s| ensures IsWhite(s[k]) {
      if k < i { assert s[k] == s[..i][k]; } else { assert s[k] == s[i..][k - i]; }
    }
  }

  /** Two cuts that both leave something start at the same place. */
  lemma {:induction false} CutStartsAgree(s: string, i1: int, j1: int, i2: int, j2: int)
    requires IsCut(s, i1, j1) && IsCut(s, i2, j2) && i1 < j1 && i2 < j2
    ensures i1 == i2
  {
    assert s[i1] == s[i1..j1][0] && s[i2] == s[i2..j2][0];
  }

  /** Two cuts that both leave something end at the same place. */
  lemma {:induction false} CutEndsAgree(s: string, i1: int, j1: int, i2: int, j2: int)
    requires IsCut(s, i1, j1) && IsCut(s, i2, j2) && i1 < j1 && i2 < j2
    ensures j1 == j2
  {
    assert s[j1 - 1] == s[i1..j1][j1 - 1 - i1] && s[j2 - 1] == s[i2..j2][j2 - 1 - i2];
  }

  /** A trimmed result is determined by its input: there is exactly one way to
      cut blank margins off `s` and leave a string with non-white ends. */
  lemma {:induction false} TrimOfUnique(r1: string, r2: string, s: string)
    requires IsTrimOf(r1, s) && IsTrimOf(r2, s)
    ensures r1 == r2
  {
    var i1, j1 :| 0 <= i1 <= j1 <= |s| && s[i1..j1] == r1 && IsBlank(s[..i1]) && IsBlank(s[j1..]);
    var i2, j2 :| 0 <= i2 <= j2 <= |s| && s[i2..j2] == r2 && IsBlank(s[..i2]) && IsBlank(s[j2..]);
    assert IsCut(s, i1, j1) && IsCut(s, i2, j2);
    if i1 == j1 {
      EmptyCutBlank(s, i1);
    } else if i2 == j2 {
      EmptyCutBlank(s, i2);
    } else {
      CutStartsAgree(s, i1, j1, i2, j2);
      CutEndsAgree(s, i1, j1, i2, j2);
    }
  }

  /** Trimming an already trimmed string changes nothing; in particular `Trim` is idempotent. */
  lemma {:induction false} TrimTrimmed(s: string)
    requires Trimmed(s)
    ensures Trim(s) == s
  {
    assert s[0..|s|] == s && s[..0] == [] && s[|s|..] == [];
    assert IsTrimOf(s, s);
    TrimMeaning(s);
    TrimOfUnique(Trim(s), s, s);
  }

  /** `Trim` never needs a second pass. */
  lemma {:induction false} TrimIdempotent(s: string)
    ensures Trim(Trim(s)) == Trim(s)
  {
    TrimTrimmed(Trim(s));
  }

  /** Leading whitespace is only removed from the front: once a non-white
      character has been met, whatever follows is kept as it is. */
  lemma {:induction false} TrimStartAppend(a: string, b: string)
    requires !IsBlank(a)
    ensures TrimStart(a + b) == TrimStart(a) + b
    decreases |a|
  {
    if IsWhite(a[0]) {
      assert (a + b)[1..] == a[1..] + b;
      assert !IsBlank(a[1..]) by {
        var k :| 0 <= k < |a| && !IsWhite(a[k]);
        assert a[1..][k - 1] == a[k];
      }
      TrimStartAppend(a[1..], b);
    }
  }

  /** Trailing whitespace is only removed from the back. */
  lemma {:induction false} TrimEndPrepend(a: string, b: string)
    requires !IsBlank(b)
    ensures TrimEnd(a + b) == a + TrimEnd(b)
    decreases |b|
  {
    if IsWhite(b[|b| - 1]) {
      assert (a + b)[..|a + b| - 1] == a + b[..|b| - 1];
      assert !IsBlank(b[..|b| - 1]) by {
        var k :| 0 <= k < |b| && !IsWhite(b[k]);
        assert b[..|b| - 1][k] == b[k];
      }
      TrimEndPrepend(a, b[..|b| - 1]);
    }
  }

  /** A string is blank exactly when both halves of it are. */
  lemma {:induction false} BlankConcat(a: string, b: string)
    ensures IsBlank(a + b) <==> IsBlank(a) && IsBlank(b)
  {
    if IsBlank(a + b) {
      forall k | 0 <= k < |a| ensures IsWhite(a[k]) { assert a[k] == (a + b)[k]; }
      forall k | 0 <= k < |b| ensures IsWhite(b[k]) { assert b[k] == (a + b)[|a| + k]; }
    }
  }

  /** Leading whitespace in front of a string is dropped as a whole. */
  lemma {:induction false} TrimStartBlankPrefix(x: string, s: string)
    requires IsBlank(x)
    ensures TrimStart(x + s) == TrimStart(s)
    decreases |x|
  {
    if x != [] {
      assert (x + s)[0] == x[0];
      assert (x + s)[1..] == x[1..] + s;
      assert IsBlank(x[1..]) by { BlankConcat(x[..1], x[1..]); assert x[..1] + x[1..] == x; }
      TrimStartBlankPrefix(x[1..], s);
    } else {
      assert x + s == s;
    }
  }

  /** Trailing whitespace behind a string is dropped as a whole. */
  lemma {:induction false} TrimEndBlankSuffix(s: string, y: string)
    requires IsBlank(y)
    ensures TrimEnd(s + y) == TrimEnd(s)
    decreases |y|
  {
    if y != [] {
      var n := |y| - 1;
      assert (s + y)[|s + y| - 1] == y[n];
      assert (s + y)[..|s + y| - 1] == s + y[..n];
      assert IsBlank(y[..n]) by { BlankConcat(y[..n], y[n..]); assert y[..n] + y[n..] == y; }
      TrimEndBlankSuffix(s, y[..n]);
    } else {
      assert s + y == s;
    }
  }

  /** Blank margins around a string make no difference to its trim. */
  lemma {:induction false} TrimBlankMargins(x: string, m: string, y: string)
    requires IsBlank(x) && IsBlank(y)
    ensures Trim(x + m + y) == Trim(m)
  {
    BlankConcat(x, m);
    BlankConcat(x + m, y);
    if IsBlank(m) {
      assert Trim(x + m + y) == [] && Trim(m) == [];
    } else {
      assert x + m + y == x + (m + y);
      TrimStartBlankPrefix(x, m + y);
      TrimStartAppend(m, y);
      var t := TrimStart(m);
      assert t != [] by { assert TrimEnd(t) == Trim(m) && Trim(m) != []; }
      assert !IsBlank(t);
      TrimEndPrepend([], t + y);
      TrimEndBlankSuffix(t, y);
    }
  }

  /** Interior text is never touched by `Trim`: when both outer parts hold a
      non-white character, only their outer margins are cut and `m` survives verbatim. */
  lemma {:induction false} TrimKeepsInterior(x: string, m: string, y: string)
    requires !IsBlank(x) && !IsBlank(y)
    ensures Trim(x + m + y) == TrimStart(x) + m + TrimEnd(y)
  {
    var p := TrimStart(x);
    TrimStartAppend(x, m + y);
    TrimEndPrepend(p + m, y);
    Regroup(x, m, y);
    Regroup(p, m, y);
  }

  /** Regrouping a concatenation of three strings. */
  lemma Regroup(a: string, b: string, c: string)
    ensures a + b + c == a + (b + c)
  {
  }

  /** Regrouping a concatenation of four strings (a helper for proofs whose
      context is too rich for the solver to regroup on its own). */
  lemma ConcatAssoc(a: string, b: string, c: string, d: string)
    ensures a + b + (c + d) == a + (b + c + d)
  {
  }

  /** `c` folded to lower case when it is an ASCII capital. */
  function FoldCase(c: char): (r: char)
    ensures 'A' <= c <= 'Z' ==> 'a' <= r <= 'z' && r as int - c as int == 32
    ensures !('A' <= c <= 'Z') ==> r == c
  {
    if 'A' <= c <= 'Z' then (c as int + 32) as char else c
  }

  /** `string.Equals(a, b, StringComparison.OrdinalIgnoreCase)`, with case folded
      over ASCII letters. */
  predicate EqualsIgnoreCase(a: string, b: string) {
    |a| == |b| && forall i :: 0 <= i < |a| ==> FoldCase(a[i]) == FoldCase(b[i])
  }

  /** A character matches a lower-case ASCII letter, ignoring case, exactly
      when it is that letter or its capital. */
  lemma FoldCaseLetter(c: char, l: char)
    requires 'a' <= l <= 'z'
    ensures FoldCase(c) == FoldCase(l) <==> c == l || c as int == l as int - 32
  {
  }

  /** Against a word of lower-case ASCII letters, the ignore-case comparison
      accepts exactly the strings of the same length that have, at every
      position, the word's letter or its capital. */
  lemma {:induction false} EqualsIgnoreCaseLetters(a: string, w: string)
    requires forall i :: 0 <= i < |w| ==> 'a' <= w[i] <= 'z'
    ensures EqualsIgnoreCase(a, w) <==>
      |a| == |w| && forall i :: 0 <= i < |a| ==> a[i] == w[i] || a[i] as int == w[i] as int - 32
  {
    if |a| == |w| {
      forall i | 0 <= i < |a|
        ensures FoldCase(a[i]) == FoldCase(w[i]) <==> a[i] == w[i] || a[i] as int == w[i] as int - 32
      {
        FoldCaseLetter(a[i], w[i]);
      }
    }
  }
}
