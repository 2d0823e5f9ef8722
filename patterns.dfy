/**
 * The shapes of JavaScript regular expression the viewer tests strings with, written
 * out as predicates. None of the viewer's expressions uses the `m` or the `u` flag, so:
 *  - `^` and `$` anchor at the two ends of the whole input;
 *  - `.` matches one character that is not a line terminator;
 *  - under the `i` flag a pattern letter matches exactly its two ASCII cases (the
 *    non-Unicode canonicalisation never maps a non-ASCII character onto an ASCII one),
 *    so folding ASCII letters is exact for the all-ASCII patterns used here.
 */
module Patterns {

  /** The characters `.` refuses to match: LF, CR, LINE SEPARATOR, PARAGRAPH SEPARATOR. */
  predicate IsLineTerminator(c: char) {
    c == '\n' || c == '\r' || c == '\U{2028}' || c == '\U{2029}'
  }

  function LowerAscii(c: char): char {
    if 'A' <= c <= 'Z' then (c as int + 32) as char else c
  }

  predicate SameIgnoringCase(a: char, b: char) {
    LowerAscii(a) == LowerAscii(b)
  }

  /** `/^p/`; a trailing `.*` adds nothing to it, since `.*` also matches the empty string. */
  predicate StartsWith(s: string, p: string) {
    |p| <= |s| && s[..|p|] == p
  }

  /** `/^p/i` */
  predicate StartsWithIgnoreCase(s: string, p: string) {
    |p| <= |s| && forall i :: 0 <= i < |p| ==> SameIgnoringCase(s[i], p[i])
  }

  /** `/^p$/i` */
  predicate EqualsIgnoreCase(s: string, p: string) {
    |s| == |p| && StartsWithIgnoreCase(s, p)
  }

  /** `/p$/i` */
  predicate EndsWithIgnoreCase(s: string, p: string) {
    |p| <= |s| && forall i :: 0 <= i < |p| ==> SameIgnoringCase(s[|s| - |p| + i], p[i])
  }

  /** `/^p.+/`: `p`, then at least one character that `.` accepts. Since the pattern is not
      anchored at the end, only the first character after `p` matters. */
  predicate PrefixThenAny(s: string, p: string) {
    StartsWith(s, p) && |s| > |p| && !IsLineTerminator(s[|p|])
  }

  /** `/^p.+/i` */
  predicate PrefixThenAnyIgnoreCase(s: string, p: string) {
    StartsWithIgnoreCase(s, p) && |s| > |p| && !IsLineTerminator(s[|p|])
  }

  /** A character-exact prefix is also a prefix ignoring case. */
  lemma StartsWithIsCaseInsensitive(s: string, p: string)
    requires StartsWith(s, p)
    ensures StartsWithIgnoreCase(s, p)
  {
    forall i | 0 <= i < |p| ensures SameIgnoringCase(s[i], p[i]) {
      assert s[..|p|][i] == s[i];
    }
  }

  /** A case-insensitive match of `p + q` is one of `p`, followed by one of `q`. */
  lemma StartsWithIgnoreCaseSplit(s: string, p: string, q: string)
    requires StartsWithIgnoreCase(s, p + q)
    ensures StartsWithIgnoreCase(s, p)
    ensures StartsWithIgnoreCase(s[|p|..], q)
  {
    forall i | 0 <= i < |p| ensures SameIgnoringCase(s[i], p[i]) {
      assert (p + q)[i] == p[i];
    }
    forall i | 0 <= i < |q| ensures SameIgnoringCase(s[|p|..][i], q[i]) {
      assert (p + q)[|p| + i] == q[i];
    }
  }

  /** Two patterns whose first letters differ (ignoring case) never both match. */
  lemma FirstLetterExcludes(s: string, p: string, q: string)
    requires |p| >= 1 && |q| >= 1 && LowerAscii(p[0]) != LowerAscii(q[0])
    ensures !(StartsWithIgnoreCase(s, p) && StartsWithIgnoreCase(s, q))
  {
  }

  /** The same for character-exact prefixes. */
  lemma FirstCharExcludes(s: string, p: string, q: string)
    requires |p| >= 1 && |q| >= 1 && p[0] != q[0]
    ensures !(StartsWith(s, p) && StartsWith(s, q))
  {
    if |p| <= |s| && |q| <= |s| {
      assert s[..|p|][0] == s[0] == s[..|q|][0];
    }
  }
}
