/**
 * The string operations the list filters rely on: Python's `str.strip()` with no
 * argument, and a literal "contains" whose character comparison is the
 * database collation, passed in as a parameter.
 */
module Text {

  /** The characters for which Python's `str.isspace()` holds. */
  predicate IsSpace(c: char)
  {
    || ('\t' <= c <= '\r')          // tab, line feed, vertical tab, form feed, carriage return
    || ('\U{1C}' <= c <= '\U{1F}')  // file, group, record and unit separators
    || c == ' ' || c == '\U{85}' || c == '\U{A0}' || c == '\U{1680}'
    || ('\U{2000}' <= c <= '\U{200A}')
    || c == '\U{2028}' || c == '\U{2029}' || c == '\U{202F}' || c == '\U{205F}' || c == '\U{3000}'
  }

  predicate AllSpace(s: string)
  {
    forall k :: 0 <= k < |s| ==> IsSpace(s[k])
  }

  /** The first position at or after `i` that holds no whitespace, or `|s|`. */
  function SkipSpace(s: string, i: nat): (j: nat)
    requires i <= |s|
    ensures i <= j <= |s|
    ensures forall k :: i <= k < j ==> IsSpace(s[k])
    ensures j < |s| ==> !IsSpace(s[j])
    decreases |s| - i
  {
    if i < |s| && IsSpace(s[i]) then SkipSpace(s, i + 1) else i
  }

  /** The position just past the last non-whitespace character in `s[lo..j]`, or `lo`. */
  function TrimEnd(s: string, lo: nat, j: nat): (e: nat)
    requires lo <= j <= |s|
    ensures lo <= e <= j
    ensures forall k :: e <= k < j ==> IsSpace(s[k])
    ensures e > lo ==> !IsSpace(s[e - 1])
    decreases j
  {
    if j > lo && IsSpace(s[j - 1]) then TrimEnd(s, lo, j - 1) else j
  }

  /**
   * `s.strip()`: `s` without the whitespace at either end. It is empty exactly
   * when `s` is all whitespace; `StripIsSlice` says which part of `s` it is.
   */
  function Strip(s: string): (r: string)
    ensures |r| <= |s|
    ensures r == [] || (!IsSpace(r[0]) && !IsSpace(r[|r| - 1]))
    ensures r == [] <==> AllSpace(s)
  {
    var a := SkipSpace(s, 0);
    var e := TrimEnd(s, a, |s|);
    assert e > a ==> s[a..e][0] == s[a] && s[a..e][e - a - 1] == s[e - 1];
    s[a..e]
  }

  /** `Strip(s)` is a slice of `s` with only whitespace before and after it. */
  lemma StripIsSlice(s: string)
    ensures exists i ::
      && 0 <= i && i + |Strip(s)| <= |s| && Strip(s) == s[i..i + |Strip(s)|]
      && AllSpace(s[..i]) && AllSpace(s[i + |Strip(s)|..])
  {
    var a := SkipSpace(s, 0);
    var e := TrimEnd(s, a, |s|);
    assert Strip(s) == s[a..e] && e == a + |Strip(s)|;
    assert AllSpace(s[..a]) by {
      forall k | 0 <= k < a ensures IsSpace(s[..a][k]) { assert s[..a][k] == s[k]; }
    }
    assert AllSpace(s[e..]) by {
      forall k | 0 <= k < |s| - e ensures IsSpace(s[e..][k]) { assert s[e..][k] == s[e + k]; }
    }
  }

  /** A stripped string has nothing left to strip. */
  lemma StripIdempotent(s: string)
    ensures Strip(Strip(s)) == Strip(s)
  {
    var r := Strip(s);
    if r != [] {
      assert SkipSpace(r, 0) == 0;
      assert TrimEnd(r, 0, |r|) == |r|;
      assert r[0..|r|] == r;
    }
  }

  /**
   * The database's "field contains value" test on two strings, which depends on
   * its collation; the intended test is `Contains` under that collation.
   */
  type Matcher = (string, string) -> bool

  /** How the database compares two characters (its collation). */
  type Collation = (char, char) -> bool

  /** Exact, case-sensitive comparison: a binary collation. */
  function Exact(a: char, b: char): bool
  {
    a == b
  }

  predicate StartsWith(s: string, prefix: string, same: Collation)
  {
    |prefix| <= |s| && forall k :: 0 <= k < |prefix| ==> same(s[k], prefix[k])
  }

  /** `needle` occurs in `hay` as a literal substring, characters compared by `same`. */
  predicate Contains(hay: string, needle: string, same: Collation)
    decreases |hay|
  {
    StartsWith(hay, needle, same) || (hay != [] && Contains(hay[1..], needle, same))
  }

  /** `Contains` holds exactly when some window of `hay` matches `needle`. */
  lemma {:induction false} ContainsIffWindow(hay: string, needle: string, same: Collation)
    ensures Contains(hay, needle, same) <==>
      exists i :: 0 <= i <= |hay| - |needle| && StartsWith(hay[i..], needle, same)
    decreases |hay|
  {
    if hay != [] {
      ContainsIffWindow(hay[1..], needle, same);
      if Contains(hay[1..], needle, same) {
        var i :| 0 <= i <= |hay[1..]| - |needle| && StartsWith(hay[1..][i..], needle, same);
        assert hay[1..][i..] == hay[i + 1..];
      }
      if exists i :: 0 <= i <= |hay| - |needle| && StartsWith(hay[i..], needle, same) {
        var i :| 0 <= i <= |hay| - |needle| && StartsWith(hay[i..], needle, same);
        if i > 0 {
          assert hay[1..][i - 1..] == hay[i..];
        }
      }
    } else {
      if exists i :: 0 <= i <= |hay| - |needle| && StartsWith(hay[i..], needle, same) {
        var i :| 0 <= i <= |hay| - |needle| && StartsWith(hay[i..], needle, same);
        assert i == 0 && hay[i..] == hay;
      }
      if Contains(hay, needle, same) {
        assert hay[0..] == hay;
      }
    }
  }
}
