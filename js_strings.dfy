/**
 * The JavaScript string semantics the contact form relies on:
 * `String.prototype.trim`, the regular-expression class `\s`, and the two
 * patterns `/\S+@\S+\.\S+/` (unanchored) and `/^[\d\s\-\+\(\)]+$/`.
 */
module JsStrings {

  /**
   * ECMAScript WhiteSpace and LineTerminator code points: exactly what
   * `trim` removes and `\s` matches.
   */
  predicate IsWhitespace(c: char) {
    var n := c as int;
    || (0x09 <= n <= 0x0D)          // tab, line feed, vertical tab, form feed, carriage return
    || n == 0x20 || n == 0xA0 || n == 0x1680
    || (0x2000 <= n <= 0x200A)
    || n == 0x2028 || n == 0x2029 || n == 0x202F || n == 0x205F || n == 0x3000
    || n == 0xFEFF
  }

  /** `\S` */
  predicate NonSpace(c: char) { !IsWhitespace(c) }

  predicate AllWhitespace(s: string) {
    forall i :: 0 <= i < |s| ==> IsWhitespace(s[i])
  }

  predicate AllNonSpace(s: string) {
    forall i :: 0 <= i < |s| ==> NonSpace(s[i])
  }

  // ---------------------------------------------------------------------
  // String.prototype.trim
  // ---------------------------------------------------------------------

  /** Leading whitespace removed. */
  function TrimStart(s: string): string {
    if |s| > 0 && IsWhitespace(s[0]) then TrimStart(s[1..]) else s
  }

  /** `TrimStart` keeps a suffix of `s` that does not start with whitespace, after a whitespace prefix. */
  lemma {:induction false} TrimStartMeaning(s: string)
    ensures |TrimStart(s)| <= |s| && TrimStart(s) == s[|s| - |TrimStart(s)|..]
    ensures AllWhitespace(s[..|s| - |TrimStart(s)|])
    ensures |TrimStart(s)| > 0 ==> !IsWhitespace(TrimStart(s)[0])
    decreases |s|
  {
    if |s| > 0 && IsWhitespace(s[0]) {
      var rest := TrimStart(s[1..]);
      TrimStartMeaning(s[1..]);
      assert TrimStart(s) == rest;
      var k := |s| - |rest|;
      assert s[..k] == [s[0]] + s[1..][..k - 1];
      assert s[1..][k - 1..] == s[k..];
    } else {
      assert TrimStart(s) == s;
      assert s[..0] == [] && s[0..] == s;
    }
  }

  /** Trailing whitespace removed. */
  function TrimEnd(s: string): string {
    if |s| > 0 && IsWhitespace(s[|s| - 1]) then TrimEnd(s[..|s| - 1]) else s
  }

  /** `TrimEnd` keeps a prefix of `s` that does not end with whitespace, before a whitespace suffix. */
  lemma {:induction false} TrimEndMeaning(s: string)
    ensures |TrimEnd(s)| <= |s| && TrimEnd(s) == s[..|TrimEnd(s)|]
    ensures AllWhitespace(s[|TrimEnd(s)|..])
    ensures |TrimEnd(s)| > 0 ==> !IsWhitespace(TrimEnd(s)[|TrimEnd(s)| - 1])
    decreases |s|
  {
    if |s| > 0 && IsWhitespace(s[|s| - 1]) {
      var rest := TrimEnd(s[..|s| - 1]);
      TrimEndMeaning(s[..|s| - 1]);
      assert s[|rest|..] == s[..|s| - 1][|rest|..] + [s[|s| - 1]];
    }
  }

  /** `s.trim()` */
  function Trim(s: string): string {
    TrimEnd(TrimStart(s))
  }

  /**
   * Neither end of `s.trim()` is whitespace, and it is empty exactly when
   * `s` is all whitespace (so `!s.trim()` means blank).
   */
  lemma TrimMeaning(s: string)
    ensures |Trim(s)| <= |s|
    ensures |Trim(s)| > 0 ==> !IsWhitespace(Trim(s)[0]) && !IsWhitespace(Trim(s)[|Trim(s)| - 1])
    ensures Trim(s) == [] <==> AllWhitespace(s)
  {
    var t := TrimStart(s);
    var r := TrimEnd(t);
    TrimStartMeaning(s);
    TrimEndMeaning(t);
    if t != [] {
      assert t[0] == s[|s| - |t|];
      assert t[|t| - |t|..] == t;
      assert r != [] && r[0] == t[0];
    } else {
      assert s[..|s|] == s;
    }
  }

  // ---------------------------------------------------------------------
  // /\S+@\S+\.\S+/.test(s)
  // ---------------------------------------------------------------------

  /** `t` splits as x `@` y `.` z with the `@` at i, the `.` at j and x, y, z nonempty runs of `\S`. */
  predicate ShapeAt(t: string, i: int, j: int) {
    && 0 < i && i + 1 < j && j + 1 < |t| && t[i] == '@' && t[j] == '.'
    && AllNonSpace(t[..i]) && AllNonSpace(t[i + 1..j]) && AllNonSpace(t[j + 1..])
  }

  /** `t` belongs to the language of `\S+@\S+\.\S+`. */
  ghost predicate EmailShape(t: string) {
    exists i, j :: ShapeAt(t, i, j)
  }

  /** `test` with an unanchored pattern: some contiguous substring is in the language. */
  ghost predicate EmailRegexTest(s: string) {
    exists a, b :: 0 <= a <= b <= |s| && EmailShape(s[a..b])
  }

  /**
   * The shortest possible match: an `@` at p and a `.` at q with a nonspace
   * just before p, only nonspace strictly between them (at least one), and a
   * nonspace just after q.
   */
  predicate MatchAt(s: string, p: int, q: int) {
    && 0 < p && p + 1 < q && q + 1 < |s| && s[p] == '@' && s[q] == '.'
    && NonSpace(s[p - 1]) && NonSpace(s[q + 1]) && AllNonSpace(s[p + 1..q])
  }

  /** The scan for a shortest match. */
  predicate HasEmailMatch(s: string) {
    exists p, q | 0 <= p < |s| && 0 <= q < |s| :: MatchAt(s, p, q)
  }

  /** A shortest match extends to a substring in the language. */
  lemma EmailMatchSound(s: string, p: int, q: int)
    requires MatchAt(s, p, q)
    ensures EmailRegexTest(s)
  {
    var t := s[p - 1..q + 2];
    var i, j := 1, q - p + 1;
    assert t[..i] == [s[p - 1]];
    var mid, run := t[i + 1..j], s[p + 1..q];
    forall k | 0 <= k < |mid| ensures NonSpace(mid[k]) {
      assert mid[k] == run[k];
    }
    assert t[j + 1..] == [s[q + 1]];
    assert ShapeAt(t, i, j);
  }

  /** Any substring in the language contains a shortest match. */
  lemma EmailMatchComplete(s: string, a: int, b: int, i: int, j: int)
    requires 0 <= a <= b <= |s| && ShapeAt(s[a..b], i, j)
    ensures MatchAt(s, a + i, a + j)
  {
    var t := s[a..b];
    assert s[a + i - 1] == t[..i][i - 1];
    assert s[a + j + 1] == t[j + 1..][0];
    var run, mid := s[a + i + 1..a + j], t[i + 1..j];
    forall k | 0 <= k < |run| ensures NonSpace(run[k]) {
      assert run[k] == mid[k];
    }
  }

  /** The shortest-match scan decides the regular-expression test exactly. */
  lemma EmailMatchIff(s: string)
    ensures HasEmailMatch(s) <==> EmailRegexTest(s)
  {
    if HasEmailMatch(s) {
      var p, q :| 0 <= p < |s| && 0 <= q < |s| && MatchAt(s, p, q);
      EmailMatchSound(s, p, q);
    }
    if EmailRegexTest(s) {
      var a, b :| 0 <= a <= b <= |s| && EmailShape(s[a..b]);
      var i, j :| ShapeAt(s[a..b], i, j);
      EmailMatchComplete(s, a, b, i, j);
    }
  }

  // ---------------------------------------------------------------------
  // /^[\d\s\-\+\(\)]+$/.test(s)
  // ---------------------------------------------------------------------

  /** `\d` is the ASCII digits only. */
  predicate IsDigit(c: char) { '0' <= c <= '9' }

  /** The class `[\d\s\-\+\(\)]`. */
  predicate PhoneChar(c: char) {
    IsDigit(c) || IsWhitespace(c) || c == '-' || c == '+' || c == '(' || c == ')'
  }

  /** Anchored at both ends without the `m` flag: the whole string, one or more class characters. */
  predicate PhoneRegexTest(s: string) {
    |s| > 0 && forall i :: 0 <= i < |s| ==> PhoneChar(s[i])
  }
}
