/**
 * The string trimming that the to-do screen applies to the pending input
 * before it decides whether to add an item (ECMAScript String.prototype.trim).
 * Strings are sequences of characters; every character that trim removes lies
 * in the Basic Multilingual Plane, so a UTF-16 code unit and a character agree
 * here.
 */
module Text {

  /** The characters trim removes: the WhiteSpace and LineTerminator code points
      of ECMAScript (section 12.2 and 12.3 of ECMA-262), including every
      character of the Unicode category Zs. */
  predicate IsWhitespace(c: char) {
    || c == '\t'          // CHARACTER TABULATION
    || c == '\n'          // LINE FEED
    || c == '\U{000B}'    // LINE TABULATION
    || c == '\U{000C}'    // FORM FEED
    || c == '\r'          // CARRIAGE RETURN
    || c == ' '           // SPACE
    || c == '\U{00A0}'    // NO-BREAK SPACE
    || c == '\U{1680}'    // OGHAM SPACE MARK
    || ('\U{2000}' <= c <= '\U{200A}')  // EN QUAD .. HAIR SPACE
    || c == '\U{2028}'    // LINE SEPARATOR
    || c == '\U{2029}'    // PARAGRAPH SEPARATOR
    || c == '\U{202F}'    // NARROW NO-BREAK SPACE
    || c == '\U{205F}'    // MEDIUM MATHEMATICAL SPACE
    || c == '\U{3000}'    // IDEOGRAPHIC SPACE
    || c == '\U{FEFF}'    // ZERO WIDTH NO-BREAK SPACE
  }

  /** True when every character of s is whitespace (the empty string included). */
  ghost predicate AllWhitespace(s: string) {
    forall i :: 0 <= i < |s| ==> IsWhitespace(s[i])
  }

  /** True when s neither starts nor ends with whitespace. */
  predicate IsTrimmed(s: string) {
    s == [] || (!IsWhitespace(s[0]) && !IsWhitespace(s[|s| - 1]))
  }

  /** Drops the leading whitespace. */
  function TrimStart(s: string): string
    decreases |s|
  {
    if s != [] && IsWhitespace(s[0]) then TrimStart(s[1..]) else s
  }

  /** Drops the trailing whitespace. */
  function TrimEnd(s: string): string
    decreases |s|
  {
    if s != [] && IsWhitespace(s[|s| - 1]) then TrimEnd(s[..|s| - 1]) else s
  }

  /** String.prototype.trim: both ends stripped of whitespace. */
  function Trim(s: string): string {
    TrimEnd(TrimStart(s))
  }

  /** TrimStart keeps the suffix of s that starts at its first non-whitespace
      character: what it drops is whitespace, and what it keeps does not start
      with whitespace. */
  lemma {:induction false} TrimStartSuffix(s: string) returns (i: nat)
    ensures i <= |s| && TrimStart(s) == s[i..]
    ensures AllWhitespace(s[..i])
    ensures i < |s| ==> !IsWhitespace(s[i])
    decreases |s|
  {
    if s != [] && IsWhitespace(s[0]) {
      var k := TrimStartSuffix(s[1..]);
      i := k + 1;
      assert s[1..][k..] == s[i..];
      forall m | 0 <= m < i ensures IsWhitespace(s[..i][m]) {
        if m > 0 {
          assert s[..i][m] == s[1..][..k][m - 1];
        }
      }
    } else {
      i := 0;
    }
  }

  /** TrimEnd keeps the prefix of s that ends at its last non-whitespace
      character: what it drops is whitespace, and what it keeps does not end
      with whitespace. */
  lemma {:induction false} TrimEndPrefix(s: string) returns (j: nat)
    ensures j <= |s| && TrimEnd(s) == s[..j]
    ensures AllWhitespace(s[j..])
    ensures 0 < j ==> !IsWhitespace(s[j - 1])
    decreases |s|
  {
    if s != [] && IsWhitespace(s[|s| - 1]) {
      var front := s[..|s| - 1];
      j := TrimEndPrefix(front);
      assert front[..j] == s[..j];
      forall m | 0 <= m < |s| - j ensures IsWhitespace(s[j..][m]) {
        if m < |s| - 1 - j {
          assert s[j..][m] == front[j..][m];
        }
      }
    } else {
      j := |s|;
    }
  }

  /** Trim keeps one contiguous block of s, which neither starts nor ends with
      whitespace, and removes only whitespace around it. */
  lemma TrimIsInfix(s: string) returns (i: nat, j: nat)
    ensures i <= j <= |s|
    ensures Trim(s) == s[i..j]
    ensures AllWhitespace(s[..i]) && AllWhitespace(s[j..])
    ensures IsTrimmed(Trim(s))
  {
    i := TrimStartSuffix(s);
    var front := s[i..];
    var k := TrimEndPrefix(front);
    j := i + k;
    assert front[..k] == s[i..j];
    assert front[k..] == s[j..];
    if k > 0 {
      assert Trim(s)[0] == s[i];
      assert Trim(s)[k - 1] == front[k - 1];
    }
  }

  /** The result of Trim neither starts nor ends with whitespace. */
  lemma TrimIsTrimmed(s: string)
    ensures IsTrimmed(Trim(s)) && |Trim(s)| <= |s|
  {
    var i, j := TrimIsInfix(s);
  }

  /** Trim gives the empty string exactly when s is all whitespace. */
  lemma TrimEmptyIff(s: string)
    ensures Trim(s) == [] <==> AllWhitespace(s)
  {
    var i, j := TrimIsInfix(s);
    if Trim(s) == [] {
      assert i == j;
      forall k | 0 <= k < |s| ensures IsWhitespace(s[k]) {
        if k < i {
          assert s[k] == s[..i][k];
        } else {
          assert s[k] == s[j..][k - j];
        }
      }
    } else {
      assert s[i] == Trim(s)[0];
    }
  }

  /** A string is left alone by Trim exactly when it is already trimmed. */
  lemma TrimFixpoint(s: string)
    ensures Trim(s) == s <==> IsTrimmed(s)
  {
    TrimIsTrimmed(s);
    if IsTrimmed(s) && s != [] {
      assert TrimStart(s) == s;
      assert TrimEnd(s) == s;
    }
  }

  /** Trimming twice is trimming once. */
  lemma TrimIdempotent(s: string)
    ensures Trim(Trim(s)) == Trim(s)
  {
    TrimIsTrimmed(s);
    TrimFixpoint(Trim(s));
  }
}
