/** The two JavaScript string primitives the validators lean on: the
    white-space class shared by String.prototype.trim, the regular-expression
    escape \s and parseInt, and trim itself. */
module JsText {

  /** A character of the ECMAScript WhiteSpace or LineTerminator productions:
      TAB, LF, VT, FF, CR, SPACE, NBSP, ZWNBSP and the Zs space separators,
      plus LINE SEPARATOR and PARAGRAPH SEPARATOR. */
  predicate IsWhitespace(c: char) {
    ('\t' <= c <= '\r') || c == ' ' || c == '\U{00A0}' || c == '\U{1680}'
    || ('\U{2000}' <= c <= '\U{200A}') || c == '\U{2028}' || c == '\U{2029}'
    || c == '\U{202F}' || c == '\U{205F}' || c == '\U{3000}' || c == '\U{FEFF}'
  }

  predicate AllWhitespace(s: string) {
    forall k :: 0 <= k < |s| ==> IsWhitespace(s[k])
  }

  predicate NoWhitespace(s: string) {
    forall k :: 0 <= k < |s| ==> !IsWhitespace(s[k])
  }

  /** True when s neither starts nor ends with white space. */
  predicate Tight(s: string) {
    s == [] || (!IsWhitespace(s[0]) && !IsWhitespace(s[|s| - 1]))
  }

  /** The leading-white-space strip that trim and parseInt perform: the
      longest suffix of s that does not start with white space. */
  function TrimStart(s: string): string {
    if |s| > 0 && IsWhitespace(s[0]) then TrimStart(s[1..]) else s
  }

  /** What TrimStart keeps is a suffix, what it drops is all white space,
      and what it keeps does not start with white space. */
  lemma {:induction false} TrimStartFacts(s: string)
    ensures |TrimStart(s)| <= |s| && TrimStart(s) == s[|s| - |TrimStart(s)|..]
    ensures AllWhitespace(s[..|s| - |TrimStart(s)|])
    ensures TrimStart(s) == [] || !IsWhitespace(TrimStart(s)[0])
  {
    if |s| > 0 && IsWhitespace(s[0]) {
      TrimStartFacts(s[1..]);
      var r := TrimStart(s[1..]);
      assert s[|s| - |r|..] == s[1..][|s| - 1 - |r|..];
      var dropped := s[..|s| - |r|];
      forall k | 0 <= k < |dropped| ensures IsWhitespace(dropped[k]) {
        if k > 0 { assert dropped[k] == s[1..][..|s| - 1 - |r|][k - 1]; }
      }
    }
  }

  /** The trailing-white-space strip: the longest prefix of s that does not
      end with white space. */
  function TrimEnd(s: string): string {
    if |s| > 0 && IsWhitespace(s[|s| - 1]) then TrimEnd(s[..|s| - 1]) else s
  }

  /** What TrimEnd keeps is a prefix, what it drops is all white space,
      and what it keeps does not end with white space. */
  lemma {:induction false} TrimEndFacts(s: string)
    ensures |TrimEnd(s)| <= |s| && TrimEnd(s) == s[..|TrimEnd(s)|]
    ensures AllWhitespace(s[|TrimEnd(s)|..])
    ensures TrimEnd(s) == [] || !IsWhitespace(TrimEnd(s)[|TrimEnd(s)| - 1])
  {
    if |s| > 0 && IsWhitespace(s[|s| - 1]) {
      TrimEndFacts(s[..|s| - 1]);
      var r := TrimEnd(s[..|s| - 1]);
      assert s[|r|..] == s[..|s| - 1][|r|..] + [s[|s| - 1]];
    }
  }

  /** String.prototype.trim. */
  function Trim(s: string): (r: string)
    ensures Tight(r)
  {
    var t := TrimStart(s);
    var r := TrimEnd(t);
    TrimStartFacts(s);
    TrimEndFacts(t);
    assert r == [] || !IsWhitespace(r[0]) by {
      if r != [] { assert r[0] == t[0]; }
    }
    r
  }

  /** trim removes exactly a white-space prefix and a white-space suffix:
      s == p + Trim(s) + q with p and q all white space. */
  lemma TrimSplits(s: string)
    ensures |Trim(s)| <= |s|
    ensures exists i :: 0 <= i <= |s| - |Trim(s)| && TrimSplitsAt(s, i)
  {
    var t := TrimStart(s);
    var r := TrimEnd(t);
    TrimStartFacts(s);
    TrimEndFacts(t);
    var i := |s| - |t|;
    assert s[i..i + |r|] == r;
    assert s[..i] == s[..|s| - |t|];
    assert s[i + |r|..] == t[|r|..];
    assert TrimSplitsAt(s, i);
  }

  predicate TrimSplitsAt(s: string, i: nat)
    requires i + |Trim(s)| <= |s|
  {
    var r := Trim(s);
    s[i..i + |r|] == r && AllWhitespace(s[..i]) && AllWhitespace(s[i + |r|..])
  }

  /** The decomposition of TrimSplits is unique: whatever white-space
      padding surrounds a tight string, trim gives back that string. */
  lemma {:induction false} TrimOfPadded(p: string, m: string, q: string)
    requires AllWhitespace(p) && AllWhitespace(q) && Tight(m)
    ensures Trim(p + m + q) == m
  {
    if m == [] {
      assert p + m + q == (p + q) + [];
      TrimStartOfPadded(p + q, []);
    } else {
      assert p + m + q == p + (m + q);
      TrimStartOfPadded(p, m + q);
      TrimEndOfPadded(m, q);
    }
  }

  lemma {:induction false} TrimStartOfPadded(p: string, u: string)
    requires AllWhitespace(p)
    requires u == [] || !IsWhitespace(u[0])
    ensures TrimStart(p + u) == u
  {
    if p != [] {
      assert (p + u)[1..] == p[1..] + u;
      TrimStartOfPadded(p[1..], u);
    }
  }

  lemma {:induction false} TrimEndOfPadded(m: string, q: string)
    requires AllWhitespace(q)
    requires m == [] || !IsWhitespace(m[|m| - 1])
    ensures TrimEnd(m + q) == m
  {
    if q != [] {
      assert (m + q)[..|m + q| - 1] == m + q[..|q| - 1];
      TrimEndOfPadded(m, q[..|q| - 1]);
    } else {
      assert m + q == m;
    }
  }

  /** Leading white space does not change what TrimStart keeps. */
  lemma {:induction false} TrimStartSkips(w: string, s: string)
    requires AllWhitespace(w)
    ensures TrimStart(w + s) == TrimStart(s)
  {
    if w != [] {
      assert (w + s)[0] == w[0];
      assert (w + s)[1..] == w[1..] + s;
      TrimStartSkips(w[1..], s);
    } else {
      assert w + s == s;
    }
  }

  /** Trimming twice is trimming once. */
  lemma TrimIdempotent(s: string)
    ensures Trim(Trim(s)) == Trim(s)
  {
    var r := Trim(s);
    assert [] + r + [] == r;
    TrimOfPadded([], r, []);
  }

  /** trim yields the empty string exactly when the input is all white space. */
  lemma TrimEmptyIff(s: string)
    ensures Trim(s) == [] <==> AllWhitespace(s)
  {
    var t := TrimStart(s);
    if AllWhitespace(s) {
      assert s + [] == s;
      TrimStartOfPadded(s, []);
    }
    if Trim(s) == [] {
      TrimStartFacts(s);
      TrimEndFacts(t);
      assert t[0..] == t;
      assert t == [];
      assert s[..|s|] == s;
    }
  }
}
