/** Key handling of the record normaliser: `String.prototype.trim` and the
    case-insensitive test `/date|time/i`. */
module Keys {

  /** ECMAScript WhiteSpace and LineTerminator code points, the characters
      `trim` removes: TAB, VT, FF, SPACE, NBSP, ZWNBSP, the other space
      separators (category Zs), LF, CR, LS and PS. */
  const JsWhitespace: set<char> := {
    '\t', '\U{000B}', '\U{000C}', ' ', '\U{00A0}', '\U{FEFF}', '\U{1680}',
    '\U{2000}', '\U{2001}', '\U{2002}', '\U{2003}', '\U{2004}', '\U{2005}',
    '\U{2006}', '\U{2007}', '\U{2008}', '\U{2009}', '\U{200A}',
    '\U{202F}', '\U{205F}', '\U{3000}', '\n', '\r', '\U{2028}', '\U{2029}'
  }

  predicate IsJsWhitespace(c: char)
  {
    c in JsWhitespace
  }

  /** `trimStart`: drop white space from the front. */
  function TrimStart(s: string): string
  {
    if s != [] && IsJsWhitespace(s[0]) then TrimStart(s[1..]) else s
  }

  /** `trimEnd`: drop white space from the back. */
  function TrimEnd(s: string): string
  {
    if s != [] && IsJsWhitespace(s[|s| - 1]) then TrimEnd(s[..|s| - 1]) else s
  }

  /** `key.trim()`. */
  function Trim(s: string): string
  {
    TrimEnd(TrimStart(s))
  }

  /** No white space at either end. */
  predicate IsTrimmed(s: string)
  {
    s == [] || (!IsJsWhitespace(s[0]) && !IsJsWhitespace(s[|s| - 1]))
  }

  /** `trimStart` removes the longest white-space prefix. */
  lemma {:induction false} TrimStartCuts(s: string) returns (a: nat)
    ensures a <= |s| && TrimStart(s) == s[a..]
    ensures forall i :: 0 <= i < a ==> IsJsWhitespace(s[i])
    ensures a == |s| || !IsJsWhitespace(s[a])
  {
    if s != [] && IsJsWhitespace(s[0]) {
      var a' := TrimStartCuts(s[1..]);
      a := a' + 1;
      assert s[1..][a'..] == s[a..];
      forall i | 0 < i < a ensures IsJsWhitespace(s[i]) {
        assert s[i] == s[1..][i - 1];
      }
    } else {
      a := 0;
    }
  }

  /** `trimEnd` removes the longest white-space suffix. */
  lemma {:induction false} TrimEndCuts(s: string) returns (b: nat)
    ensures b <= |s| && TrimEnd(s) == s[..b]
    ensures forall i :: b <= i < |s| ==> IsJsWhitespace(s[i])
    ensures b == 0 || !IsJsWhitespace(s[b - 1])
  {
    if s != [] && IsJsWhitespace(s[|s| - 1]) {
      b := TrimEndCuts(s[..|s| - 1]);
      assert s[..|s| - 1][..b] == s[..b];
      forall i | b <= i < |s| - 1 ensures IsJsWhitespace(s[i]) {
        assert s[i] == s[..|s| - 1][i];
      }
    } else {
      b := |s|;
    }
  }

  /** `trim` cuts a white-space prefix and a white-space suffix off `s` and
      leaves a string with white space at neither end. */
  lemma TrimBounds(s: string) returns (a: nat, b: nat)
    ensures a <= b <= |s| && Trim(s) == s[a..b]
    ensures forall i :: 0 <= i < a ==> IsJsWhitespace(s[i])
    ensures forall i :: b <= i < |s| ==> IsJsWhitespace(s[i])
    ensures IsTrimmed(Trim(s))
  {
    a := TrimStartCuts(s);
    var t := s[a..];
    var m := TrimEndCuts(t);
    b := a + m;
    var r := Trim(s);
    assert r == t[..m];
    assert r == s[a..b] by {
      forall k | 0 <= k < m ensures r[k] == s[a + k] {
        assert r[k] == t[k];
      }
    }
    forall i | b <= i < |s| ensures IsJsWhitespace(s[i]) {
      assert s[i] == t[i - a];
    }
    if r != [] {
      assert r[0] == t[0] == s[a];
      assert r[m - 1] == t[m - 1];
    }
  }

  /** ASCII lower-casing. Canonicalisation under the `i` flag leaves a
      non-ASCII character alone whenever its upper case would be ASCII, so
      only A-Z can match the lower-case letters of "date" and "time". */
  function Lower(c: char): char
  {
    if 'A' <= c <= 'Z' then (c as int + 32) as char else c
  }

  /** The four characters of `s` from `i` spell `w` in any letter case. */
  predicate FoldsAt(s: string, i: int, w: string)
    requires |w| == 4
  {
    0 <= i && i + 4 <= |s| &&
    Lower(s[i]) == w[0] && Lower(s[i + 1]) == w[1] &&
    Lower(s[i + 2]) == w[2] && Lower(s[i + 3]) == w[3]
  }

  predicate MatchesAt(s: string, i: int)
  {
    FoldsAt(s, i, "date") || FoldsAt(s, i, "time")
  }

  /** `/date|time/i.test(s)`: "date" or "time", in any letter case, occurs
      somewhere in `s`. */
  predicate MatchesDateTime(s: string)
  {
    exists i :: 0 <= i < |s| && MatchesAt(s, i)
  }

  /** A character of a match is a letter, never white space. */
  lemma MatchIsNotWhitespace(s: string, i: int, k: int)
    requires MatchesAt(s, i) && i <= k < i + 4
    ensures !IsJsWhitespace(s[k])
  {
  }

  /** A match survives cutting the string anywhere outside it, and a match
      in a slice is a match in the whole string. */
  lemma MatchInSlice(s: string, a: nat, b: nat, i: int)
    requires a <= b <= |s| && a <= i && i + 4 <= b
    ensures MatchesAt(s, i) <==> MatchesAt(s[a..b], i - a)
  {
  }

  /** The date/time test gives the same answer on a raw key and on the
      trimmed key: `trim` removes only white space, and a match contains
      none. */
  lemma MatchesDateTimeTrim(s: string)
    ensures MatchesDateTime(Trim(s)) <==> MatchesDateTime(s)
  {
    var a, b := TrimBounds(s);
    if MatchesDateTime(s) {
      var i :| 0 <= i < |s| && MatchesAt(s, i);
      MatchIsNotWhitespace(s, i, i);
      MatchIsNotWhitespace(s, i, i + 3);
      MatchInSlice(s, a, b, i);
      assert MatchesAt(Trim(s), i - a);
    }
    if MatchesDateTime(Trim(s)) {
      var j :| 0 <= j < |Trim(s)| && MatchesAt(Trim(s), j);
      MatchInSlice(s, a, b, a + j);
      assert MatchesAt(s, a + j);
    }
  }
}
