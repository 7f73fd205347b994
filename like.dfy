/**
 * SQL `LIKE` as the list filters use it. Each active filter value is sent as
 * the pattern `%value%` without escaping, so `%`, `_` and `\` inside the value
 * act as wildcards and escapes rather than as the characters typed.
 * `LikeMatch` and `Pattern` model that as written; `EscapedPattern` is the
 * pattern that makes the match the literal substring test `Text.Contains`.
 */
module Like {
  import opened Text

  /**
   * MySQL's `LIKE` with its default escape character `\`: `%` matches any run
   * of characters, `_` any one character, `\` makes the next character literal
   * (a trailing `\` is itself literal); other characters are compared by the
   * collation.
   */
  predicate LikeMatch(s: string, p: string, same: Collation)
    decreases |s| + |p|
  {
    if p == [] then s == []
    else if p[0] == '%' then LikeMatch(s, p[1..], same) || (s != [] && LikeMatch(s[1..], p, same))
    else if p[0] == '_' then s != [] && LikeMatch(s[1..], p[1..], same)
    else if p[0] == '\\' && |p| >= 2 then s != [] && same(s[0], p[1]) && LikeMatch(s[1..], p[2..], same)
    else s != [] && same(s[0], p[0]) && LikeMatch(s[1..], p[1..], same)
  }

  /** The pattern bound for a filter value, as written: `f"%{value}%"`. */
  function Pattern(needle: string): string
  {
    "%" + needle + "%"
  }

  predicate IsSpecial(c: char)
  {
    c == '%' || c == '_' || c == '\\'
  }

  /**
   * `needle` with a `\` placed before each `%`, `_` and `\`. A value without
   * those characters is sent unchanged, so the escaping changes nothing for
   * ordinary search text.
   */
  function Escape(needle: string): (e: string)
    ensures (forall k :: 0 <= k < |needle| ==> !IsSpecial(needle[k])) ==> e == needle
  {
    if needle == [] then []
    else (if IsSpecial(needle[0]) then ['\\', needle[0]] else [needle[0]]) + Escape(needle[1..])
  }

  /** The evidently intended pattern: the value escaped, then wrapped in `%`. */
  function EscapedPattern(needle: string): string
  {
    "%" + Escape(needle) + "%"
  }

  /** A lone `%` matches every string. */
  lemma {:induction false} PercentMatchesAll(s: string, same: Collation)
    ensures LikeMatch(s, "%", same)
    decreases |s|
  {
    if s != [] {
      PercentMatchesAll(s[1..], same);
    } else {
      assert "%"[1..] == [];
    }
  }

  /** An escaped prefix followed by `%` matches exactly the strings that start with it. */
  lemma {:induction false} EscapedPrefix(s: string, needle: string, same: Collation)
    ensures LikeMatch(s, Escape(needle) + "%", same) <==> StartsWith(s, needle, same)
    decreases |needle|
  {
    var p := Escape(needle) + "%";
    if needle == [] {
      assert p == "%";
      PercentMatchesAll(s, same);
    } else {
      var c := needle[0];
      var rest := Escape(needle[1..]) + "%";
      if IsSpecial(c) {
        assert p == ['\\', c] + rest;
        assert p[2..] == rest;
      } else {
        assert p == [c] + rest;
        assert p[1..] == rest;
      }
      if s != [] {
        EscapedPrefix(s[1..], needle[1..], same);
        assert StartsWith(s, needle, same) <==>
          same(s[0], c) && StartsWith(s[1..], needle[1..], same) by {
          if same(s[0], c) && StartsWith(s[1..], needle[1..], same) {
            forall k | 0 <= k < |needle| ensures same(s[k], needle[k]) {
              if k > 0 { assert s[k] == s[1..][k - 1] && needle[k] == needle[1..][k - 1]; }
            }
          }
          if StartsWith(s, needle, same) {
            forall k | 0 <= k < |needle[1..]| ensures same(s[1..][k], needle[1..][k]) {
              assert s[1..][k] == s[k + 1] && needle[1..][k] == needle[k + 1];
            }
          }
        }
      }
    }
  }

  /** With the value escaped, `LIKE '%value%'` is the literal substring test. */
  lemma {:induction false} EscapedPatternIsContains(hay: string, needle: string, same: Collation)
    ensures LikeMatch(hay, EscapedPattern(needle), same) <==> Contains(hay, needle, same)
    decreases |hay|
  {
    var p := EscapedPattern(needle);
    assert p[0] == '%' && p[1..] == Escape(needle) + "%";
    EscapedPrefix(hay, needle, same);
    if hay != [] {
      EscapedPatternIsContains(hay[1..], needle, same);
    }
  }

  /** As written, the value `_` matches every non-empty field. */
  lemma UnderscoreMatchesAnyNonEmpty(hay: string, same: Collation)
    requires hay != []
    ensures LikeMatch(hay, Pattern("_"), same)
  {
    var p := Pattern("_");
    assert p == "%_%" && p[1..] == "_%" && p[1..][1..] == "%";
    PercentMatchesAll(hay[1..], same);
  }

  /** As written, the value `%` matches every field, the empty one included. */
  lemma PercentMatchesEverything(hay: string, same: Collation)
    ensures LikeMatch(hay, Pattern("%"), same)
  {
    var p := Pattern("%");
    assert p == "%%%" && p[1..] == "%%" && p[1..][1..] == "%";
    PercentMatchesAll(hay, same);
  }

  /**
   * The discrepancy on one input: searching for `_` lists a hero named "Bat"
   * whose name holds no underscore; the escaped pattern does not.
   */
  lemma UnderscoreDiverges()
    ensures LikeMatch("Bat", Pattern("_"), Exact)
    ensures !Contains("Bat", "_", Exact)
    ensures !LikeMatch("Bat", EscapedPattern("_"), Exact)
  {
    UnderscoreMatchesAnyNonEmpty("Bat", Exact);
    assert "Bat"[1..] == "at" && "at"[1..] == "t" && "t"[1..] == [];
    assert !Contains("t", "_", Exact);
    assert !Contains("at", "_", Exact);
    EscapedPatternIsContains("Bat", "_", Exact);
  }
}
