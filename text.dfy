/**
 * The string operations the server and the browser apply to form input:
 * Python's `str.strip()` and `str.lower()`, and JavaScript's `String.prototype.trim()`,
 * each with its own notion of whitespace.
 */
module Text {

  /** The characters for which Python's `str.isspace()` is true. */
  predicate IsPySpace(c: char) {
    || '\t' <= c <= '\r'
    || '\U{1C}' <= c <= ' '
    || c == '\U{85}' || c == '\U{A0}' || c == '\U{1680}'
    || '\U{2000}' <= c <= '\U{200A}'
    || c == '\U{2028}' || c == '\U{2029}' || c == '\U{202F}' || c == '\U{205F}' || c == '\U{3000}'
  }

  /**
   * ECMAScript WhiteSpace and LineTerminator: what `trim()` removes and what the
   * regular-expression class `\s` matches.
   */
  predicate IsJsSpace(c: char) {
    || '\t' <= c <= '\r'
    || c == ' ' || c == '\U{A0}' || c == '\U{1680}'
    || '\U{2000}' <= c <= '\U{200A}'
    || c == '\U{2028}' || c == '\U{2029}' || c == '\U{202F}' || c == '\U{205F}' || c == '\U{3000}'
    || c == '\U{FEFF}'
  }

  predicate AllSpace(s: string, isSpace: char -> bool) {
    forall i :: 0 <= i < |s| ==> isSpace(s[i])
  }

  /** Drops the leading whitespace. */
  function TrimStart(s: string, isSpace: char -> bool): (r: string)
    ensures |r| <= |s|
    ensures r == [] || !isSpace(r[0])
  {
    if s == [] || !isSpace(s[0]) then s else TrimStart(s[1..], isSpace)
  }

  /** Drops the trailing whitespace. */
  function TrimEnd(s: string, isSpace: char -> bool): (r: string)
    ensures |r| <= |s|
    ensures r == [] || !isSpace(r[|r| - 1])
  {
    if s == [] || !isSpace(s[|s| - 1]) then s else TrimEnd(s[..|s| - 1], isSpace)
  }

  /** What is left of the front is a suffix, and only whitespace was dropped. */
  lemma {:induction false} TrimStartCut(s: string, isSpace: char -> bool)
    ensures var r := TrimStart(s, isSpace);
      r == s[|s| - |r|..] && AllSpace(s[..|s| - |r|], isSpace)
  {
    if s != [] && isSpace(s[0]) {
      var t := s[1..];
      var r := TrimStart(t, isSpace);
      assert TrimStart(s, isSpace) == r;
      TrimStartCut(t, isSpace);
      var n := |s| - |r|;
      assert r == s[n..];
      forall i | 0 <= i < n
        ensures isSpace(s[..n][i])
      {
        if i > 0 {
          assert s[..n][i] == t[..n - 1][i - 1];
        }
      }
    }
  }

  /** What is left of the back is a prefix, and only whitespace was dropped. */
  lemma {:induction false} TrimEndCut(s: string, isSpace: char -> bool)
    ensures var r := TrimEnd(s, isSpace);
      r == s[..|r|] && AllSpace(s[|r|..], isSpace)
  {
    if s != [] && isSpace(s[|s| - 1]) {
      var t := s[..|s| - 1];
      var r := TrimEnd(t, isSpace);
      assert TrimEnd(s, isSpace) == r;
      TrimEndCut(t, isSpace);
      assert r == s[..|r|];
      forall i | 0 <= i < |s| - |r|
        ensures isSpace(s[|r|..][i])
      {
        if i < |t| - |r| {
          assert s[|r|..][i] == t[|r|..][i];
        }
      }
    }
  }

  /** Removes leading and trailing whitespace. */
  function Trim(s: string, isSpace: char -> bool): (r: string)
    ensures |r| <= |s|
    ensures r == [] || (!isSpace(r[0]) && !isSpace(r[|r| - 1]))
  {
    var t := TrimStart(s, isSpace);
    TrimEndCut(t, isSpace);
    TrimEnd(t, isSpace)
  }

  /** Python's `str.strip()` with no argument. */
  function Strip(s: string): (r: string)
    ensures |r| <= |s|
    ensures r != [] ==> !IsPySpace(r[0]) && !IsPySpace(r[|r| - 1])
  {
    Trim(s, IsPySpace)
  }

  /** JavaScript's `s.trim()`. */
  function JsTrim(s: string): (r: string)
    ensures |r| <= |s|
    ensures r != [] ==> !IsJsSpace(r[0]) && !IsJsSpace(r[|r| - 1])
  {
    Trim(s, IsJsSpace)
  }

  /**
   * The trimmed string is a contiguous piece of the original, and what was cut
   * from either end is whitespace.
   */
  lemma TrimPiece(s: string, isSpace: char -> bool)
    ensures var r := Trim(s, isSpace);
      exists k :: (0 <= k <= |s| - |r| && r == s[k..k + |r|]
                   && AllSpace(s[..k], isSpace) && AllSpace(s[k + |r|..], isSpace))
  {
    var t := TrimStart(s, isSpace);
    var r := TrimEnd(t, isSpace);
    var k := |s| - |t|;
    TrimStartCut(s, isSpace);
    TrimEndCut(t, isSpace);
    assert r == s[k..k + |r|];
    assert s[k + |r|..] == t[|r|..];
    assert AllSpace(s[k + |r|..], isSpace);
    assert 0 <= k <= |s| - |r| && AllSpace(s[..k], isSpace);
  }

  /** Trimming the front of an all-whitespace string leaves nothing. */
  lemma {:induction false} TrimStartAllSpace(s: string, isSpace: char -> bool)
    ensures AllSpace(s, isSpace) ==> TrimStart(s, isSpace) == []
  {
    if s != [] && AllSpace(s, isSpace) {
      TrimStartAllSpace(s[1..], isSpace);
    }
  }

  /** A string trims to nothing exactly when every character of it is whitespace. */
  lemma TrimEmptyIff(s: string, isSpace: char -> bool)
    ensures Trim(s, isSpace) == [] <==> AllSpace(s, isSpace)
  {
    var t := TrimStart(s, isSpace);
    TrimStartAllSpace(s, isSpace);
    if TrimEnd(t, isSpace) == [] {
      TrimStartCut(s, isSpace);
      TrimEndCut(t, isSpace);
      assert t[0..] == t;
      assert t == [];
      assert s[..|s|] == s;
    }
  }

  /** Trimming is idempotent. */
  lemma TrimIdempotent(s: string, isSpace: char -> bool)
    ensures Trim(Trim(s, isSpace), isSpace) == Trim(s, isSpace)
  {
    var r := Trim(s, isSpace);
    var t := TrimStart(r, isSpace);
    assert t == r;
  }

  function AsciiLowerChar(c: char): (r: char)
    ensures 'A' <= c <= 'Z' ==> r as int == c as int + 32
    ensures !('A' <= c <= 'Z') ==> r == c
  {
    if 'A' <= c <= 'Z' then (c as int + 32) as char else c
  }

  /** `str.lower()` restricted to the ASCII letters (see README). */
  function Lower(s: string): (r: string)
    ensures |r| == |s|
    ensures forall i :: 0 <= i < |s| ==> r[i] == AsciiLowerChar(s[i])
  {
    if s == [] then [] else [AsciiLowerChar(s[0])] + Lower(s[1..])
  }
}
