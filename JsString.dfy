/**
  The two ECMAScript string built-ins the upload widget relies on:
  `String.prototype.trim` and `String.prototype.startsWith`.
  Strings are sequences of characters; every character that `trim` strips
  lies in the Basic Multilingual Plane, so code points and UTF-16 code
  units agree on them.
 */
module JsString {

  /** WhiteSpace or LineTerminator in the sense of ECMAScript: the set `trim` strips. */
  predicate IsTrimmable(c: char): (r: bool)
    // every such character is in the Basic Multilingual Plane ...
    ensures r ==> c <= '\U{FEFF}'
    // ... and none is an ASCII letter or digit
    ensures ('0' <= c <= '9' || 'a' <= c <= 'z' || 'A' <= c <= 'Z') ==> !r
  {
    // WhiteSpace: TAB, VT, FF, SP, NBSP, ZWNBSP and the other Zs code points
    c == '\t' || c == '\U{000B}' || c == '\U{000C}' || c == ' ' ||
    c == '\U{00A0}' || c == '\U{FEFF}' || c == '\U{1680}' ||
    ('\U{2000}' <= c <= '\U{200A}') ||
    c == '\U{202F}' || c == '\U{205F}' || c == '\U{3000}' ||
    // LineTerminator: LF, CR, LS, PS
    c == '\n' || c == '\r' || c == '\U{2028}' || c == '\U{2029}'
  }

  /** Every character of `s` in the index range `lo..hi` is one that `trim` strips. */
  predicate TrimmableBetween(s: string, lo: int, hi: int)
    requires 0 <= lo <= hi <= |s|
  {
    forall k :: lo <= k < hi ==> IsTrimmable(s[k])
  }

  /** The first index at or after `i` whose character `trim` keeps, or `|s|`. */
  function SkipLeading(s: string, i: nat): (j: nat)
    requires i <= |s|
    ensures i <= j <= |s|
    ensures TrimmableBetween(s, i, j)
    ensures j < |s| ==> !IsTrimmable(s[j])
    decreases |s| - i
  {
    if i < |s| && IsTrimmable(s[i]) then SkipLeading(s, i + 1) else i
  }

  /** The end of `s[lo..j]` once its trailing trimmable characters are dropped. */
  function SkipTrailing(s: string, lo: nat, j: nat): (k: nat)
    requires lo <= j <= |s|
    ensures lo <= k <= j
    ensures TrimmableBetween(s, k, j)
    ensures lo < k ==> !IsTrimmable(s[k - 1])
  {
    if lo < j && IsTrimmable(s[j - 1]) then SkipTrailing(s, lo, j - 1) else j
  }

  /** How many trimmable characters `trim` strips from the front of `s`. */
  function LeadingTrimmed(s: string): (n: nat)
    ensures n <= |s|
  {
    SkipLeading(s, 0)
  }

  /**
    `s.trim()`: the text between the leading and the trailing trimmable
    characters. It is empty exactly when `s` is all white space, and
    otherwise neither starts nor ends with a trimmable character.
   */
  function Trim(s: string): (r: string)
    ensures |r| <= |s|
    ensures r == [] <==> TrimmableBetween(s, 0, |s|)
    ensures r != [] ==> !IsTrimmable(r[0]) && !IsTrimmable(r[|r| - 1])
  {
    var i := SkipLeading(s, 0);
    var k := SkipTrailing(s, i, |s|);
    assert i < |s| ==> i < k;
    s[i..k]
  }

  /**
    Where `trim`'s result sits in `s`: the infix that starts after the leading
    trimmable characters, everything outside it being trimmable.
   */
  lemma TrimIsInfix(s: string)
    ensures LeadingTrimmed(s) + |Trim(s)| <= |s|
    ensures Trim(s) == s[LeadingTrimmed(s)..LeadingTrimmed(s) + |Trim(s)|]
    ensures TrimmableBetween(s, 0, LeadingTrimmed(s))
    ensures TrimmableBetween(s, LeadingTrimmed(s) + |Trim(s)|, |s|)
  {
    var i := SkipLeading(s, 0);
    var k := SkipTrailing(s, i, |s|);
    assert Trim(s) == s[i..k];
  }

  /** Trimming twice is trimming once. */
  lemma TrimIdempotent(s: string)
    ensures Trim(Trim(s)) == Trim(s)
  {
    var r := Trim(s);
    if r != [] {
      assert SkipLeading(r, 0) == 0;
      assert SkipTrailing(r, 0, |r|) == |r|;
      assert r[0..|r|] == r;
    }
  }

  lemma {:induction false} SkipLeadingPadded(s: string, i: nat, n: nat)
    requires i <= n < |s|
    requires TrimmableBetween(s, i, n) && !IsTrimmable(s[n])
    ensures SkipLeading(s, i) == n
    decreases n - i
  {
    if i < n {
      SkipLeadingPadded(s, i + 1, n);
    }
  }

  lemma {:induction false} SkipTrailingPadded(s: string, lo: nat, n: nat, j: nat)
    requires lo < n <= j <= |s|
    requires TrimmableBetween(s, n, j) && !IsTrimmable(s[n - 1])
    ensures SkipTrailing(s, lo, j) == n
  {
    if n < j {
      SkipTrailingPadded(s, lo, n, j - 1);
    }
  }

  /**
    The converse of `TrimIsInfix`: text padded on both sides with trimmable
    characters, and neither starting nor ending with one, is what `trim` returns.
   */
  lemma TrimOfPadded(p: string, m: string, q: string)
    requires TrimmableBetween(p, 0, |p|) && TrimmableBetween(q, 0, |q|)
    requires m != [] && !IsTrimmable(m[0]) && !IsTrimmable(m[|m| - 1])
    ensures Trim(p + m + q) == m
  {
    var s := p + m + q;
    var n := |p| + |m|;
    assert TrimmableBetween(s, 0, |p|) && s[|p|] == m[0] by {
      forall k | 0 <= k < |p| ensures s[k] == p[k] { }
    }
    SkipLeadingPadded(s, 0, |p|);
    assert TrimmableBetween(s, n, |s|) && s[n - 1] == m[|m| - 1] by {
      forall k | n <= k < |s| ensures s[k] == q[k - n] { }
    }
    SkipTrailingPadded(s, |p|, n, |s|);
    assert s[|p|..n] == m;
  }

  /** `s.startsWith(prefix)`. */
  predicate StartsWith(s: string, prefix: string): (r: bool)
    ensures r <==> |prefix| <= |s| && forall k :: 0 <= k < |prefix| ==> s[k] == prefix[k]
    ensures r ==> s == prefix + s[|prefix|..]
  {
    |prefix| <= |s| && s[..|prefix|] == prefix
  }
}
