/**
 The three string primitives the chat handler relies on: `trim` (used only to
 reject a blank message), `toLowerCase` (restricted here to ASCII letters) and
 `includes` (substring search). Strings are sequences of Unicode scalar values.
 */
module Text {

  /** The ECMAScript WhiteSpace and LineTerminator code points, which is the set
      `String.prototype.trim` strips from both ends. */
  predicate IsWhitespace(c: char) {
    var n := c as int;
    || n == 0x09 || n == 0x0A || n == 0x0B || n == 0x0C || n == 0x0D
    || n == 0x20 || n == 0xA0 || n == 0x1680
    || (0x2000 <= n <= 0x200A)
    || n == 0x2028 || n == 0x2029 || n == 0x202F || n == 0x205F
    || n == 0x3000 || n == 0xFEFF
  }

  /** Every character of `s` in positions `lo` to `hi - 1` is whitespace. */
  predicate WhitespaceBetween(s: string, lo: int, hi: int)
    requires 0 <= lo <= hi <= |s|
  {
    forall k :: lo <= k < hi ==> IsWhitespace(s[k])
  }

  predicate AllWhitespace(s: string) {
    WhitespaceBetween(s, 0, |s|)
  }

  /** `n` occurs in `h` starting at position `i`. */
  predicate OccursAt(h: string, n: string, i: int) {
    0 <= i && i + |n| <= |h| && h[i..i + |n|] == n
  }

  /** Leading whitespace removed. */
  function TrimStart(s: string): (r: string)
    ensures |r| <= |s| && r == s[|s| - |r|..]
    ensures WhitespaceBetween(s, 0, |s| - |r|)
    ensures r == [] || !IsWhitespace(r[0])
    decreases |s|
  {
    if |s| == 0 then s
    else if IsWhitespace(s[0]) then
      var r := TrimStart(s[1..]);
      assert forall k :: 1 <= k < |s| - |r| ==> s[k] == s[1..][k - 1];
      r
    else s
  }

  /** Trailing whitespace removed. */
  function TrimEnd(s: string): (r: string)
    ensures |r| <= |s| && r == s[..|r|]
    ensures WhitespaceBetween(s, |r|, |s|)
    ensures r == [] || !IsWhitespace(r[|r| - 1])
    decreases |s|
  {
    if |s| == 0 then s
    else if IsWhitespace(s[|s| - 1]) then
      var r := TrimEnd(s[..|s| - 1]);
      assert forall k :: |r| <= k < |s| - 1 ==> s[k] == s[..|s| - 1][k];
      r
    else s
  }

  /** `s.trim()`: whitespace stripped from both ends. The result is empty
      exactly when `s` is made of whitespace only; otherwise it starts and ends
      with a non-whitespace character. */
  function Trim(s: string): (r: string)
    ensures r == [] || (!IsWhitespace(r[0]) && !IsWhitespace(r[|r| - 1]))
    ensures r == [] <==> AllWhitespace(s)
  {
    var t := TrimStart(s);
    var r := TrimEnd(t);
    if r == [] then
      r
    else
      assert !AllWhitespace(s) by {
        assert t[0] == s[|s| - |t|];
      }
      r
  }

  /** What `Trim` removes is whitespace at the two ends and nothing else: the
      result is a contiguous piece of `s` with only whitespace around it. */
  lemma LemmaTrimShape(s: string)
    ensures exists i :: OccursAt(s, Trim(s), i) && WhitespaceBetween(s, 0, i)
                        && WhitespaceBetween(s, i + |Trim(s)|, |s|)
  {
    var t := TrimStart(s);
    var r := TrimEnd(t);
    var i := |s| - |t|;
    assert s[i..i + |r|] == r;
    assert forall k :: i + |r| <= k < |s| ==> s[k] == t[k - i];
    assert OccursAt(s, r, i) && WhitespaceBetween(s, 0, i) && WhitespaceBetween(s, i + |r|, |s|);
  }

  /** `!s.trim()`: the trimmed string is empty, hence falsy. */
  predicate IsBlank(s: string) {
    |Trim(s)| == 0
  }

  predicate IsAsciiUpper(c: char) {
    'A' <= c <= 'Z'
  }

  /** ASCII case folding of one character. */
  function LowerChar(c: char): (r: char)
    ensures !IsAsciiUpper(r)
    ensures IsAsciiUpper(c) ==> r as int == c as int + 32
    ensures !IsAsciiUpper(c) ==> r == c
  {
    if IsAsciiUpper(c) then (c as int + 32) as char else c
  }

  /** Upper-case counterpart of `LowerChar`, used to state case-insensitivity. */
  function UpperChar(c: char): (r: char)
    ensures LowerChar(r) == LowerChar(c)
  {
    if 'a' <= c <= 'z' then (c as int - 32) as char else c
  }

  /** `s.toLowerCase()` over ASCII: same length, no upper-case ASCII letter is
      left, every character keeps its letter identity. */
  function Lower(s: string): (r: string)
    ensures |r| == |s|
    ensures forall i :: 0 <= i < |s| ==> r[i] == LowerChar(s[i])
    ensures forall i :: 0 <= i < |r| ==> !IsAsciiUpper(r[i])
  {
    seq(|s|, i requires 0 <= i < |s| => LowerChar(s[i]))
  }

  function Upper(s: string): (r: string)
    ensures |r| == |s|
    ensures forall i :: 0 <= i < |s| ==> r[i] == UpperChar(s[i])
  {
    seq(|s|, i requires 0 <= i < |s| => UpperChar(s[i]))
  }

  /** Two characters are the same letter up to ASCII case: equal, or one is an
      upper-case ASCII letter and the other its lower-case partner. */
  predicate SameLetterIgnoringCase(x: char, y: char) {
    || x == y
    || (IsAsciiUpper(x) && y as int == x as int + 32)
    || (IsAsciiUpper(y) && x as int == y as int + 32)
  }

  /** Two strings that spell the same text up to the case of ASCII letters. */
  predicate SameIgnoringCase(a: string, b: string) {
    |a| == |b| && forall i :: 0 <= i < |a| ==> SameLetterIgnoringCase(a[i], b[i])
  }

  /** Lower-casing identifies exactly the characters equal up to case. */
  lemma LemmaLowerCharEqualIff(x: char, y: char)
    ensures LowerChar(x) == LowerChar(y) <==> SameLetterIgnoringCase(x, y)
  {
    if IsAsciiUpper(x) && !IsAsciiUpper(y) {
      assert LowerChar(x) as int == x as int + 32 && LowerChar(y) == y;
    } else if IsAsciiUpper(y) && !IsAsciiUpper(x) {
      assert LowerChar(y) as int == y as int + 32 && LowerChar(x) == x;
    } else if IsAsciiUpper(x) && IsAsciiUpper(y) {
      assert LowerChar(x) as int == x as int + 32 && LowerChar(y) as int == y as int + 32;
    }
  }

  /** Lower-casing identifies exactly the strings equal up to case. */
  lemma LemmaLowerEqualIff(a: string, b: string)
    ensures Lower(a) == Lower(b) <==> SameIgnoringCase(a, b)
  {
    if |a| == |b| {
      forall i | 0 <= i < |a|
        ensures Lower(a)[i] == Lower(b)[i] <==> SameLetterIgnoringCase(a[i], b[i])
      {
        LemmaLowerCharEqualIff(a[i], b[i]);
      }
      if Lower(a) == Lower(b) {
        assert forall i :: 0 <= i < |a| ==> Lower(a)[i] == Lower(b)[i];
      }
    }
  }

  lemma LemmaLowerIdempotent(s: string)
    ensures Lower(Lower(s)) == Lower(s)
  {
    assert forall i :: 0 <= i < |s| ==> Lower(Lower(s))[i] == Lower(s)[i];
  }

  /** Lower-casing works character by character, so it distributes over `+`. */
  lemma LemmaLowerAppend(a: string, b: string)
    ensures Lower(a + b) == Lower(a) + Lower(b)
  {
    assert forall i :: 0 <= i < |a + b| ==> Lower(a + b)[i] == (Lower(a) + Lower(b))[i];
  }

  lemma LemmaUpperSameIgnoringCase(s: string)
    ensures SameIgnoringCase(Upper(s), s)
  {
    forall i | 0 <= i < |s|
      ensures SameLetterIgnoringCase(Upper(s)[i], s[i])
    {
      LemmaLowerCharEqualIff(Upper(s)[i], s[i]);
    }
  }

  /** `h.includes(n)`: `n` occurs somewhere in `h`; the empty string occurs in
      every string. */
  function Contains(h: string, n: string): (b: bool)
    ensures b <==> exists i :: OccursAt(h, n, i)
  {
    ContainsFrom(h, n, 0)
  }

  /** The scan behind `Contains`: an occurrence of `n` at position `from` or later. */
  function ContainsFrom(h: string, n: string, from: nat): (b: bool)
    ensures b <==> exists i :: from <= i && OccursAt(h, n, i)
    decreases |h| - from
  {
    if from + |n| > |h| then
      false
    else if h[from..from + |n|] == n then
      assert OccursAt(h, n, from);
      true
    else
      ContainsFrom(h, n, from + 1)
  }

  /** A character of `n` missing from `h` rules out an occurrence. */
  lemma LemmaMissingCharNotContained(h: string, n: string, c: char)
    requires c in n && c !in h
    ensures !Contains(h, n)
  {
  }
}
