/** The anchored e-mail pattern of validarEmail, ^[^\s@]+@[^\s@]+\.[^\s@]+$ :
    as a language (the ways a string splits into the pattern's pieces), as a
    shape (one '@', no white space, a dot inside the domain) and as a
    one-pass scanner. */
module EmailPattern {
  import opened JsText

  /** A character that [^\s@] accepts. */
  predicate IsAtomChar(c: char) {
    !IsWhitespace(c) && c != '@'
  }

  /** A string that [^\s@]+ matches. */
  predicate IsAtom(x: string) {
    |x| > 0 && forall k :: 0 <= k < |x| ==> IsAtomChar(x[k])
  }

  /** s is local + "@" + domain + "." + tld, with the '@' at index i and the
      '.' at index j, and each of the three pieces an atom. */
  predicate SplitsAt(s: string, i: int, j: int) {
    0 <= i < j < |s|
    && IsAtom(s[..i]) && s[i] == '@'
    && IsAtom(s[i + 1..j]) && s[j] == '.'
    && IsAtom(s[j + 1..])
  }

  /** patron.test(s): the whole string matches the pattern. Each of the
      three atoms takes at least one character, so a match has at least
      five, starts with something other than '@', and holds an '@' and a
      '.'. */
  predicate MatchesPattern(s: string)
    ensures MatchesPattern(s) ==> |s| >= 5 && s[0] != '@' && '@' in s && '.' in s
  {
    exists i, j | 0 <= i < j < |s| :: SplitsAt(s, i, j)
  }

  /** The only '@' of s is at index i. */
  predicate OnlyAtIs(s: string, i: int) {
    0 <= i < |s| && s[i] == '@' && forall k :: 0 <= k < |s| && k != i ==> s[k] != '@'
  }

  /** Some '.' lies after index i with at least one character between it
      and i and at least one after it. */
  predicate DotAfter(s: string, i: int) {
    exists j | 0 <= j < |s| :: i + 1 < j < |s| - 1 && s[j] == '.'
  }

  /** The shape of an address the pattern accepts: no white space, exactly
      one '@', at index 1 or later, and a dot inside what follows it. */
  predicate HasEmailShape(s: string) {
    NoWhitespace(s) && exists i | 1 <= i < |s| :: OnlyAtIs(s, i) && DotAfter(s, i)
  }

  /** The pattern's language is exactly the strings of that shape. */
  lemma PatternIsShape(s: string)
    ensures MatchesPattern(s) <==> HasEmailShape(s)
  {
    if MatchesPattern(s) {
      var i, j :| 0 <= i < j < |s| && SplitsAt(s, i, j);
      ShapeOfSplit(s, i, j);
    }
    if HasEmailShape(s) {
      var i :| 1 <= i < |s| && OnlyAtIs(s, i) && DotAfter(s, i);
      var j :| i + 1 < j < |s| - 1 && s[j] == '.';
      SplitOfShape(s, i, j);
    }
  }

  lemma ShapeOfSplit(s: string, i: int, j: int)
    requires SplitsAt(s, i, j)
    ensures NoWhitespace(s) && 1 <= i && OnlyAtIs(s, i) && DotAfter(s, i)
  {
    forall k | 0 <= k < |s| && k != i
      ensures IsAtomChar(s[k]) || s[k] == '.'
    {
      if k < i {
        assert s[k] == s[..i][k];
      } else if i < k < j {
        assert s[k] == s[i + 1..j][k - i - 1];
      } else if j < k {
        assert s[k] == s[j + 1..][k - j - 1];
      }
    }
    assert !IsWhitespace('.') && !IsWhitespace('@');
  }

  lemma SplitOfShape(s: string, i: int, j: int)
    requires NoWhitespace(s) && 1 <= i && OnlyAtIs(s, i)
    requires i + 1 < j < |s| - 1 && s[j] == '.'
    ensures SplitsAt(s, i, j)
  {
    forall k | 0 <= k < i ensures IsAtomChar(s[..i][k]) {
      assert s[..i][k] == s[k];
    }
    var domain, tld := s[i + 1..j], s[j + 1..];
    forall k | 0 <= k < |domain| ensures IsAtomChar(domain[k]) {
      assert domain[k] == s[i + 1 + k];
    }
    forall k | 0 <= k < |tld| ensures IsAtomChar(tld[k]) {
      assert tld[k] == s[j + 1 + k];
    }
    assert !IsWhitespace('.');
  }

  /** The pattern as one left-to-right pass that remembers whether white
      space was seen, how many '@' were seen (0, 1 or "two or more"), where
      the last '@' was, and whether a usable '.' followed it. */
  method ScanEmail(s: string) returns (ok: bool)
    ensures ok == MatchesPattern(s)
  {
    var i := 0;
    var sawSpace := false;
    var ats := 0;
    var at := -1;
    var sawDot := false;
    while i < |s|
      invariant 0 <= i <= |s|
      invariant sawSpace <==> exists k :: 0 <= k < i && IsWhitespace(s[k])
      invariant 0 <= ats <= 2
      invariant ats == 0 <==> at == -1
      invariant ats == 0 ==> forall k :: 0 <= k < i ==> s[k] != '@'
      invariant ats >= 1 ==> 0 <= at < i && s[at] == '@'
      invariant ats == 1 ==> forall k :: 0 <= k < i && k != at ==> s[k] != '@'
      invariant ats == 2 ==> exists k :: 0 <= k < i && k != at && s[k] == '@'
      invariant sawDot <==> ats >= 1 && exists j :: at + 1 < j < i && j < |s| - 1 && s[j] == '.'
    {
      var c := s[i];
      if IsWhitespace(c) {
        sawSpace := true;
      }
      if c == '@' {
        if ats >= 1 {
          ats := 2;
        } else {
          ats := 1;
        }
        at := i;
        sawDot := false;
      } else if c == '.' && ats >= 1 && at + 1 < i && i < |s| - 1 {
        sawDot := true;
      }
      i := i + 1;
    }
    ok := !sawSpace && ats == 1 && at >= 1 && sawDot;
    assert ok == HasEmailShape(s) by {
      if ok {
        assert OnlyAtIs(s, at) && DotAfter(s, at);
      }
      if HasEmailShape(s) {
        var w :| 1 <= w < |s| && OnlyAtIs(s, w) && DotAfter(s, w);
        assert at == w;
      }
    }
    PatternIsShape(s);
  }

  /** "a@b.co" and "a@b.c.d" match: a dot may also occur inside the
      domain. */
  lemma AcceptedExamples()
    ensures MatchesPattern("a@b.co") && MatchesPattern("a@b.c.d")
  {
    assert SplitsAt("a@b.co", 1, 3);
    assert SplitsAt("a@b.c.d", 1, 3);
  }

  /** "a@b" has no dot after the '@'. */
  lemma RejectsNoDot()
    ensures !MatchesPattern("a@b")
  {
    PatternIsShape("a@b");
  }

  /** "@c.com" has nothing before the '@'. */
  lemma RejectsEmptyLocal()
    ensures !MatchesPattern("@c.com")
  {
    PatternIsShape("@c.com");
  }

  /** "a@@b.c" has two '@'. */
  lemma RejectsTwoAts()
    ensures !MatchesPattern("a@@b.c")
  {
    PatternIsShape("a@@b.c");
    assert "a@@b.c"[1] == '@' && "a@@b.c"[2] == '@';
  }

  /** "a b@c.com" holds a space. */
  lemma RejectsSpace()
    ensures !MatchesPattern("a b@c.com")
  {
    PatternIsShape("a b@c.com");
    assert IsWhitespace("a b@c.com"[1]);
  }
}
