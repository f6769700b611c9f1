/** Character classes and string operations with Python's `str` semantics. */
module Text {

  /** Python's `str.isspace()`: the characters that `str.strip()` removes when called without an argument. */
  predicate IsSpace(c: char) {
    || ('\t' <= c <= '\r')
    || ('\U{1C}' <= c <= ' ')
    || c == '\U{85}' || c == '\U{A0}' || c == '\U{1680}'
    || ('\U{2000}' <= c <= '\U{200A}')
    || c == '\U{2028}' || c == '\U{2029}' || c == '\U{202F}' || c == '\U{205F}' || c == '\U{3000}'
  }

  /** One of the characters of '0123456789', the argument of `str.strip` in the digit-strip filter. */
  predicate IsDigit(c: char) {
    '0' <= c <= '9'
  }

  /** A character of the regular-expression class `[A-Z]`. */
  predicate IsCapital(c: char) {
    'A' <= c <= 'Z'
  }

  predicate IsPercent(c: char) {
    c == '%'
  }

  /** `str.upper()` on one character, for the ASCII letters. */
  function UpperChar(c: char): (u: char)
    ensures 'a' <= c <= 'z' ==> IsCapital(u) && u as int == c as int - 32
    ensures !('a' <= c <= 'z') ==> u == c
  {
    if 'a' <= c <= 'z' then (c as int - 32) as char else c
  }

  /** `str.upper()` on a whole string, character by character. */
  function ToUpper(s: string): (r: string)
    ensures |r| == |s|
    ensures forall i :: 0 <= i < |s| ==> r[i] == UpperChar(s[i])
    ensures forall i :: 0 <= i < |s| ==> IsSpace(r[i]) == IsSpace(s[i])
  {
    seq(|s|, i requires 0 <= i < |s| => UpperChar(s[i]))
  }

  /** Removes the longest prefix whose characters all satisfy `drop`. */
  function TrimStart(s: string, drop: char -> bool): (r: string)
    ensures |r| <= |s| && r == s[|s| - |r|..]
    ensures r == [] || !drop(r[0])
    ensures forall k :: 0 <= k < |s| - |r| ==> drop(s[k])
  {
    if s != [] && drop(s[0]) then TrimStart(s[1..], drop) else s
  }

  /** A string starting with a kept character loses nothing at the start. */
  lemma TrimStartKeeps(s: string, drop: char -> bool)
    requires s == [] || !drop(s[0])
    ensures TrimStart(s, drop) == s
  {
  }

  /** A dropped first character goes, and trimming goes on from the next one. */
  lemma TrimStartDrops(s: string, drop: char -> bool)
    requires s != [] && drop(s[0])
    ensures TrimStart(s, drop) == TrimStart(s[1..], drop)
  {
  }

  /** Removes the longest suffix whose characters all satisfy `drop` (Python's `str.rstrip(chars)`). */
  function TrimEnd(s: string, drop: char -> bool): (r: string)
    ensures |r| <= |s| && r == s[..|r|]
    ensures r == [] || !drop(r[|r| - 1])
    ensures forall k :: |r| <= k < |s| ==> drop(s[k])
  {
    if s != [] && drop(s[|s| - 1]) then TrimEnd(s[..|s| - 1], drop) else s
  }

  /** A string ending with a kept character loses nothing at the end. */
  lemma TrimEndKeeps(s: string, drop: char -> bool)
    requires s == [] || !drop(s[|s| - 1])
    ensures TrimEnd(s, drop) == s
  {
  }

  /** A dropped last character goes, and trimming goes on from the one before. */
  lemma TrimEndDrops(s: string, drop: char -> bool)
    requires s != [] && drop(s[|s| - 1])
    ensures TrimEnd(s, drop) == TrimEnd(s[..|s| - 1], drop)
  {
  }

  /** Python's `str.strip(chars)`: trims both ends; the result is a slice of `s` whose first
      and last characters are kept and everything outside which is dropped. */
  function Strip(s: string, drop: char -> bool): (r: string)
    ensures |r| <= |s|
    ensures var i := |s| - |TrimStart(s, drop)|;
              && i + |r| <= |s| && r == s[i..i + |r|]
              && (forall k :: 0 <= k < i ==> drop(s[k]))
              && (forall k :: i + |r| <= k < |s| ==> drop(s[k]))
    ensures r != [] ==> !drop(r[0]) && !drop(r[|r| - 1])
  {
    var t := TrimStart(s, drop);
    var r := TrimEnd(t, drop);
    TrimBothEnds(s, t, r, drop);
    r
  }

  /** Trimming the end after the start leaves a slice of `s` with dropped characters on
      both sides of it. */
  lemma TrimBothEnds(s: string, t: string, r: string, drop: char -> bool)
    requires |t| <= |s| && t == s[|s| - |t|..]
    requires |r| <= |t| && r == t[..|r|] && forall k :: |r| <= k < |t| ==> drop(t[k])
    ensures var i := |s| - |t|;
            && i + |r| <= |s| && r == s[i..i + |r|]
            && (forall k :: i + |r| <= k < |s| ==> drop(s[k]))
  {
    var i := |s| - |t|;
    assert t == s[i..];
    assert r == t[..|r|];
    var slice := s[i..i + |r|];
    forall j | 0 <= j < |r| ensures r[j] == slice[j] {
      assert r[j] == t[j] == s[i + j];
    }
    assert r == slice;
    forall k | i + |r| <= k < |s| ensures drop(s[k]) {
      assert s[k] == t[k - i];
    }
  }

  /** A string whose two ends are kept is its own strip. */
  lemma StripStripped(s: string, drop: char -> bool)
    requires s == [] || (!drop(s[0]) && !drop(s[|s| - 1]))
    ensures Strip(s, drop) == s
  {
  }

  /** Upper-casing is idempotent. */
  lemma ToUpperIdempotent(s: string)
    ensures ToUpper(ToUpper(s)) == ToUpper(s)
  {
  }
}
