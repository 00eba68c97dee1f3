/**
 * Whitespace trimming as done by JavaScript's String.prototype.trim
 * (ECMA-262, sections "White Space" and "Line Terminators"): strip every
 * leading and trailing WhiteSpace or LineTerminator code point.
 */
module Text {

  /** The WhiteSpace and LineTerminator code points of ECMA-262. */
  predicate IsWhitespace(c: char) {
    c == '\t' || c == '\n' || c == '\U{000B}' || c == '\U{000C}' || c == '\r' ||
    c == ' ' || c == '\U{00A0}' || c == '\U{1680}' ||
    ('\U{2000}' <= c <= '\U{200A}') ||
    c == '\U{2028}' || c == '\U{2029}' || c == '\U{202F}' || c == '\U{205F}' ||
    c == '\U{3000}' || c == '\U{FEFF}'
  }

  /** Every character of `s` is whitespace (vacuously true of ""). */
  predicate AllWhitespace(s: string) {
    forall k :: 0 <= k < |s| ==> IsWhitespace(s[k])
  }

  /** `s` neither starts nor ends with whitespace. */
  predicate Trimmed(s: string) {
    s == [] || (!IsWhitespace(s[0]) && !IsWhitespace(s[|s| - 1]))
  }

  /**
   * `s.trim()`: `s` with the whitespace at both ends removed, one
   * character at a time (`TrimSpec` and `TrimIsInfix` say what it keeps).
   */
  function Trim(s: string): string {
    if s != [] && IsWhitespace(s[0]) then Trim(s[1..])
    else if s != [] && IsWhitespace(s[|s| - 1]) then Trim(s[..|s| - 1])
    else s
  }

  /**
   * The trimmed string has no whitespace at either end, is no longer than
   * `s`, and is empty exactly when `s` is whitespace only.
   */
  lemma {:induction false} TrimSpec(s: string)
    ensures Trimmed(Trim(s)) && |Trim(s)| <= |s|
    ensures Trim(s) == [] <==> AllWhitespace(s)
  {
    if s != [] && IsWhitespace(s[0]) {
      TrimSpec(s[1..]);
      if AllWhitespace(s[1..]) {
        forall k | 0 < k < |s| ensures IsWhitespace(s[k]) { assert s[k] == s[1..][k - 1]; }
      }
    } else if s != [] && IsWhitespace(s[|s| - 1]) {
      TrimSpec(s[..|s| - 1]);
      assert s[..|s| - 1][0] == s[0];
    }
  }

  /** What `Trim` keeps is one contiguous piece of `s`, and all it drops is whitespace. */
  lemma {:induction false} TrimIsInfix(s: string) returns (i: nat)
    ensures i + |Trim(s)| <= |s| && Trim(s) == s[i..i + |Trim(s)|]
    ensures AllWhitespace(s[..i]) && AllWhitespace(s[i + |Trim(s)|..])
  {
    if s != [] && IsWhitespace(s[0]) {
      var t := s[1..];
      assert Trim(s) == Trim(t);
      var j := TrimIsInfix(t);
      i := j + 1;
      DropFirst(s, j, |Trim(t)|);
    } else if s != [] && IsWhitespace(s[|s| - 1]) {
      var t := s[..|s| - 1];
      assert Trim(s) == Trim(t);
      i := TrimIsInfix(t);
      DropLast(s, i, |Trim(t)|);
    } else {
      i := 0;
    }
  }

  /** Slices of `s[1..]` shifted back to `s`, with a whitespace first character. */
  lemma DropFirst(s: string, j: nat, n: nat)
    requires s != [] && IsWhitespace(s[0]) && j + n <= |s| - 1
    requires AllWhitespace(s[1..][..j]) && AllWhitespace(s[1..][j + n..])
    ensures s[1..][j..j + n] == s[j + 1..j + 1 + n]
    ensures AllWhitespace(s[..j + 1]) && AllWhitespace(s[j + 1 + n..])
  {
    assert s[1..][j + n..] == s[j + 1 + n..];
    forall k | 0 < k < j + 1 ensures IsWhitespace(s[k]) {
      assert s[k] == s[1..][..j][k - 1];
    }
  }

  /** Slices of `s[..|s| - 1]` carried over to `s`, with a whitespace last character. */
  lemma DropLast(s: string, i: nat, n: nat)
    requires s != [] && IsWhitespace(s[|s| - 1]) && i + n <= |s| - 1
    requires AllWhitespace(s[..|s| - 1][..i]) && AllWhitespace(s[..|s| - 1][i + n..])
    ensures s[..|s| - 1][i..i + n] == s[i..i + n]
    ensures AllWhitespace(s[..i]) && AllWhitespace(s[i + n..])
  {
    assert s[..|s| - 1][..i] == s[..i];
    forall k | i + n <= k < |s| - 1 ensures IsWhitespace(s[k]) {
      assert s[k] == s[..|s| - 1][i + n..][k - i - n];
    }
  }

  /** Trimming twice is trimming once. */
  lemma TrimIdempotent(s: string)
    ensures Trim(Trim(s)) == Trim(s)
  {
    TrimSpec(s);
    TrimmedIsFixed(Trim(s));
  }

  /** A string with no whitespace at either end is its own trim. */
  lemma TrimmedIsFixed(s: string)
    requires Trimmed(s)
    ensures Trim(s) == s
  {
  }
}
