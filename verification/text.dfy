/**
 * String trimming as done by JavaScript's `String.prototype.trim`: it strips
 * every leading and trailing character that ECMAScript classes as WhiteSpace
 * or LineTerminator, and nothing else.
 */
module Text {

  /** WhiteSpace and LineTerminator code points (ECMAScript sections 12.2 and 12.3). */
  predicate IsTrimSpace(c: char)
  {
    // TAB, LF, VT, FF, CR and SPACE
    || c == '\t' || c == '\n' || c == '\U{000B}' || c == '\U{000C}' || c == '\r' || c == ' '
    // the other space separators (Unicode category Zs)
    || c == '\U{00A0}' || c == '\U{1680}' || ('\U{2000}' <= c <= '\U{200A}')
    || c == '\U{202F}' || c == '\U{205F}' || c == '\U{3000}'
    // LINE SEPARATOR, PARAGRAPH SEPARATOR and the byte order mark
    || c == '\U{2028}' || c == '\U{2029}' || c == '\U{FEFF}'
  }

  /** True when every character of `s` would be removed by trimming. */
  predicate AllSpace(s: string)
  {
    forall k :: 0 <= k < |s| ==> IsTrimSpace(s[k])
  }

  /** True when `s` neither starts nor ends with a trimmable character. */
  predicate IsTrimmed(s: string)
  {
    s == [] || (!IsTrimSpace(s[0]) && !IsTrimSpace(s[|s| - 1]))
  }

  /** `s` without its leading whitespace: everything cut off is whitespace (`TrimStartIsSuffix`: a suffix of `s`). */
  function TrimStart(s: string): (r: string)
    ensures |r| <= |s|
    ensures forall k :: 0 <= k < |s| - |r| ==> IsTrimSpace(s[k])
    ensures r == [] || !IsTrimSpace(r[0])
  {
    if s != [] && IsTrimSpace(s[0]) then TrimStart(s[1..]) else s
  }

  /** `s` without its trailing whitespace: everything cut off is whitespace (`TrimEndIsPrefix`: a prefix of `s`). */
  function TrimEnd(s: string): (r: string)
    ensures |r| <= |s|
    ensures forall k :: |r| <= k < |s| ==> IsTrimSpace(s[k])
    ensures r == [] || !IsTrimSpace(r[|r| - 1])
  {
    if s != [] && IsTrimSpace(s[|s| - 1]) then TrimEnd(s[..|s| - 1]) else s
  }

  lemma {:induction false} TrimStartIsSuffix(s: string)
    ensures TrimStart(s) == s[|s| - |TrimStart(s)|..]
  {
    if s != [] && IsTrimSpace(s[0]) {
      TrimStartIsSuffix(s[1..]);
      assert s[1..][|s[1..]| - |TrimStart(s[1..])|..] == s[|s| - |TrimStart(s)|..];
    }
  }

  lemma {:induction false} TrimEndIsPrefix(s: string)
    ensures TrimEnd(s) == s[..|TrimEnd(s)|]
  {
    if s != [] && IsTrimSpace(s[|s| - 1]) {
      TrimEndIsPrefix(s[..|s| - 1]);
      assert s[..|s| - 1][..|TrimEnd(s)|] == s[..|TrimEnd(s)|];
    }
  }

  /** `s.trim()`: both ends stripped; empty exactly when `s` is all whitespace. */
  function Trim(s: string): (r: string)
    ensures IsTrimmed(r)
    ensures |r| <= |s|
    ensures r == [] <==> AllSpace(s)
  {
    var front := TrimStart(s);
    TrimStartIsSuffix(s);
    TrimEndIsPrefix(front);
    assert front == [] <==> AllSpace(s) by {
      if front != [] {
        assert s[|s| - |front|] == front[0];
      }
    }
    TrimEnd(front)
  }

  /**
   * `Trim(s)` is the slice of `s` between a whitespace-only prefix and a
   * whitespace-only suffix: nothing but edge whitespace is removed.
   */
  lemma TrimRemovesOnlyEdgeSpace(s: string)
    ensures exists i, j :: && 0 <= i <= j <= |s| && Trim(s) == s[i..j]
                           && (forall k :: 0 <= k < i ==> IsTrimSpace(s[k]))
                           && (forall k :: j <= k < |s| ==> IsTrimSpace(s[k]))
  {
    var i, j := TrimCutPoints(s);
  }

  /** Where `Trim` cuts `s`. */
  lemma TrimCutPoints(s: string) returns (i: int, j: int)
    ensures 0 <= i <= j <= |s| && Trim(s) == s[i..j]
    ensures forall k :: 0 <= k < i ==> IsTrimSpace(s[k])
    ensures forall k :: j <= k < |s| ==> IsTrimSpace(s[k])
  {
    var front := TrimStart(s);
    i := |s| - |front|;
    j := i + |Trim(s)|;
    TrimStartIsSuffix(s);
    TrimEndIsPrefix(front);
    assert Trim(s) == front[..j - i];
    forall k | j <= k < |s| ensures IsTrimSpace(s[k]) {
      assert s[k] == front[k - i];
    }
  }

  /** Trimming leaves an already trimmed string alone. */
  lemma TrimOfTrimmed(s: string)
    requires IsTrimmed(s)
    ensures Trim(s) == s
  {
    assert TrimStart(s) == s;
    assert TrimEnd(s) == s;
  }

  /** Trimming is idempotent. */
  lemma TrimIdempotent(s: string)
    ensures Trim(Trim(s)) == Trim(s)
  {
    TrimOfTrimmed(Trim(s));
  }
}
