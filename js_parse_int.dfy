/** JavaScript's global parseInt(string) called without a radix, as
    validarEdad uses it. NaN becomes None; an integer result becomes
    Some(n). The numeric result -0 (from "-0") is the integer 0. */
module JsParseInt {
  import opened JsText

  datatype Option<T> = None | Some(value: T)

  /** The value of c as a digit in any radix up to 36, or 36 when c is not
      a letter or decimal digit. */
  function DigitValue(c: char): (d: nat)
    ensures d <= 36
    ensures d < 10 <==> '0' <= c <= '9'
  {
    if '0' <= c <= '9' then (c - '0') as nat
    else if 'a' <= c <= 'z' then (c - 'a') as nat + 10
    else if 'A' <= c <= 'Z' then (c - 'A') as nat + 10
    else 36
  }

  predicate IsDigit(c: char, radix: nat) {
    DigitValue(c) < radix
  }

  predicate AllDigits(s: string, radix: nat) {
    forall k :: 0 <= k < |s| ==> IsDigit(s[k], radix)
  }

  /** The length of the longest prefix of s made of radix digits. */
  function DigitRunLength(s: string, radix: nat): (n: nat)
    ensures n <= |s|
    ensures AllDigits(s[..n], radix)
    ensures n < |s| ==> !IsDigit(s[n], radix)
  {
    if |s| > 0 && IsDigit(s[0], radix) then
      var n := 1 + DigitRunLength(s[1..], radix);
      assert forall k :: 1 <= k < n ==> s[..n][k] == s[1..][..n - 1][k - 1];
      n
    else 0
  }

  /** The number a string of radix digits denotes, most significant first. */
  function ValueOf(digits: string, radix: nat): nat {
    if digits == [] then 0
    else ValueOf(digits[..|digits| - 1], radix) * radix + DigitValue(digits[|digits| - 1])
  }

  predicate HasHexPrefix(u: string) {
    |u| >= 2 && u[0] == '0' && (u[1] == 'x' || u[1] == 'X')
  }

  /** The unsigned part of parseInt: a "0x"/"0X" prefix selects radix 16
      and otherwise radix 10; the longest run of digits of that radix is
      the number, and an empty run is NaN. */
  function ParseUnsigned(u: string): (r: Option<nat>)
  {
    var radix := if HasHexPrefix(u) then 16 else 10;
    var body := if HasHexPrefix(u) then u[2..] else u;
    var n := DigitRunLength(body, radix);
    if n == 0 then None else Some(ValueOf(body[..n], radix))
  }

  /** The signed part of parseInt: an optional '-' or '+', then the
      unsigned part. */
  function ParseSigned(t: string): (r: Option<int>)
    ensures r.Some? ==> t != [] && (r.value < 0 ==> t[0] == '-')
  {
    var negative := |t| > 0 && t[0] == '-';
    match ParseUnsigned(SplitSignRest(t))
    case None => None
    case Some(v) => Some(if negative then -(v as int) else v as int)
  }

  /** The text after the sign that ParseSigned strips. */
  function SplitSignRest(t: string): string {
    if |t| > 0 && (t[0] == '-' || t[0] == '+') then t[1..] else t
  }

  /** parseInt(s) with an undefined radix: skip leading white space, then
      parse a signed integer prefix. A number needs some text that is not
      white space, and a negative number needs a minus sign right after the
      white space. */
  function ParseIntPrefix(s: string): (r: Option<int>)
    ensures r.Some? ==> TrimStart(s) != [] && (r.value < 0 ==> TrimStart(s)[0] == '-')
  {
    ParseSigned(TrimStart(s))
  }

  /** The leading-white-space loop of the scan. */
  method SkipWhitespace(s: string) returns (i: nat)
    ensures i <= |s| && s[i..] == TrimStart(s)
  {
    i := 0;
    while i < |s| && IsWhitespace(s[i])
      invariant 0 <= i <= |s|
      invariant TrimStart(s) == TrimStart(s[i..])
    {
      assert s[i..][1..] == s[i + 1..];
      i := i + 1;
    }
  }

  /** The digit loop of the scan: from start, consume radix digits while
      accumulating their value. */
  method ScanDigits(s: string, start: nat, radix: nat) returns (end: nat, acc: nat)
    requires start <= |s|
    ensures end == start + DigitRunLength(s[start..], radix)
    ensures acc == ValueOf(s[start..end], radix)
  {
    end, acc := start, 0;
    while end < |s| && IsDigit(s[end], radix)
      invariant start <= end <= |s|
      invariant AllDigits(s[start..end], radix)
      invariant acc == ValueOf(s[start..end], radix)
    {
      assert s[start..end + 1] == s[start..end] + [s[end]];
      ValueOfSnoc(s[start..end], s[end], radix);
      acc := acc * radix + DigitValue(s[end]);
      end := end + 1;
    }
    assert s[start..][..end - start] == s[start..end];
    DigitRunIsMaximal(s[start..], radix, end - start);
  }

  /** The unsigned part of the scan, from index i of s. */
  method ScanUnsigned(s: string, i: nat) returns (r: Option<nat>)
    requires i <= |s|
    ensures r == ParseUnsigned(s[i..])
  {
    ghost var u := s[i..];
    var radix, from := 10, i;
    if i + 1 < |s| && s[i] == '0' && (s[i + 1] == 'x' || s[i + 1] == 'X') {
      radix, from := 16, i + 2;
    }
    assert s[from..] == if HasHexPrefix(u) then u[2..] else u;
    var end, acc := ScanDigits(s, from, radix);
    assert s[from..][..end - from] == s[from..end];
    r := if end == from then None else Some(acc);
  }

  /** The same parse as a single left-to-right scan, the way the engine
      walks the string. */
  method ParseIntScan(s: string) returns (r: Option<int>)
    ensures r == ParseIntPrefix(s)
  {
    var i := SkipWhitespace(s);
    ghost var t := s[i..];
    var negative := i < |s| && s[i] == '-';
    if i < |s| && (s[i] == '-' || s[i] == '+') {
      i := i + 1;
    }
    assert s[i..] == SplitSignRest(t);
    var v := ScanUnsigned(s, i);
    r := match v
      case None => None
      case Some(n) => Some(if negative then -(n as int) else n as int);
  }

  lemma ValueOfSnoc(ds: string, c: char, radix: nat)
    ensures ValueOf(ds + [c], radix) == ValueOf(ds, radix) * radix + DigitValue(c)
  {
    assert (ds + [c])[..|ds|] == ds;
  }

  /** A run of digits followed by a non-digit (or the end) is exactly the
      run DigitRunLength measures. */
  lemma DigitRunIsMaximal(s: string, radix: nat, n: nat)
    requires n <= |s|
    requires AllDigits(s[..n], radix)
    requires n < |s| ==> !IsDigit(s[n], radix)
    ensures DigitRunLength(s, radix) == n
  {
  }

  /** The canonical decimal spelling of a natural number. */
  function DecimalString(n: nat): (s: string)
    ensures |s| > 0
  {
    var last := ['0' + (n % 10) as char];
    if n < 10 then last else DecimalString(n / 10) + last
  }

  lemma {:induction false} DecimalStringFacts(n: nat)
    ensures AllDigits(DecimalString(n), 10)
    ensures ValueOf(DecimalString(n), 10) == n
    ensures DecimalString(n)[0] == '0' ==> n == 0
  {
    var s := DecimalString(n);
    if n >= 10 {
      DecimalStringFacts(n / 10);
      var p := DecimalString(n / 10);
      assert s[..|s| - 1] == p;
      assert s[0] == p[0];
    }
  }

  /** The unsigned part reads back any decimal spelling followed by text
      that does not continue it: no further digit, and no 'x' or 'X' after
      a lone "0", which would make a hexadecimal prefix. */
  lemma ParseUnsignedDecimal(n: nat, tail: string)
    requires tail == [] || (!('0' <= tail[0] <= '9') && (n == 0 ==> tail[0] != 'x' && tail[0] != 'X'))
    ensures ParseUnsigned(DecimalString(n) + tail) == Some(n)
  {
    var d := DecimalString(n);
    DecimalStringFacts(n);
    var u := d + tail;
    assert u[0] == d[0];
    if |d| > 1 {
      assert u[1] == d[1] && IsDigit(d[1], 10);
    } else if tail != [] {
      assert u[1] == tail[0];
    }
    assert !HasHexPrefix(u);
    assert u[..|d|] == d;
    if |d| < |u| { assert u[|d|] == tail[0]; }
    DigitRunIsMaximal(u, 10, |d|);
  }

  /** A string that starts with a decimal digit is parsed by its unsigned
      part alone, and a sign in front of it applies to that value. */
  lemma ParseAfterSign(u: string, n: nat)
    requires u != [] && '0' <= u[0] <= '9'
    requires ParseUnsigned(u) == Some(n)
    ensures ParseIntPrefix(u) == Some(n)
    ensures ParseIntPrefix(['-'] + u) == Some(-(n as int))
    ensures ParseIntPrefix(['+'] + u) == Some(n)
  {
    assert !IsWhitespace(u[0]);
    assert (['-'] + u)[0] == '-' && !IsWhitespace('-');
    assert (['+'] + u)[0] == '+' && !IsWhitespace('+');
    assert (['-'] + u)[1..] == u;
    assert (['+'] + u)[1..] == u;
  }

  /** parseInt reads back any decimal spelling, with or without a sign,
      whatever non-digit text follows it: "30abc" and "3.9" parse as 30 and
      3, "-7" as -7, "30x" as 30; only "0x" starts a hexadecimal number. */
  lemma ParseDecimal(n: nat, tail: string)
    requires tail == [] || (!('0' <= tail[0] <= '9') && (n == 0 ==> tail[0] != 'x' && tail[0] != 'X'))
    ensures ParseIntPrefix(DecimalString(n) + tail) == Some(n)
    ensures ParseIntPrefix("-" + DecimalString(n) + tail) == Some(-(n as int))
    ensures ParseIntPrefix("+" + DecimalString(n) + tail) == Some(n)
  {
    var d := DecimalString(n);
    var u := d + tail;
    assert "-" + d + tail == ['-'] + u;
    assert "+" + d + tail == ['+'] + u;
    DecimalStartsWithDigit(n, tail);
    ParseUnsignedDecimal(n, tail);
    ParseAfterSign(u, n);
  }

  lemma DecimalStartsWithDigit(n: nat, tail: string)
    ensures '0' <= (DecimalString(n) + tail)[0] <= '9'
  {
    DecimalStringFacts(n);
    assert (DecimalString(n) + tail)[0] == DecimalString(n)[0];
  }

  /** Without a radix, a "0x" prefix switches to hexadecimal: "0x10" is 16. */
  lemma ParseHexExample(s: string)
    requires s == "0x10"
    ensures ParseIntPrefix(s) == Some(16)
  {
    assert !IsWhitespace(s[0]);
    assert TrimStart(s) == s;
    assert HasHexPrefix(s);
    var body := s[2..];
    assert body == "10";
    assert AllDigits(body[..2], 16) by { assert body[..2] == body; }
    DigitRunIsMaximal(body, 16, 2);
    assert body[..2] == body;
    assert body[..1] == "1" && body[..1][..0] == [];
    assert ValueOf(body[..1], 16) == 1;
    assert ValueOf(body, 16) == 16;
  }

  /** parseInt skips leading white space. */
  lemma ParseIgnoresLeadingWhitespace(w: string, s: string)
    requires AllWhitespace(w)
    ensures ParseIntPrefix(w + s) == ParseIntPrefix(s)
  {
    TrimStartSkips(w, s);
  }

  /** Text that starts with no digit, sign or white space is NaN. */
  lemma ParseNoDigits(s: string)
    requires s == [] || (!('0' <= s[0] <= '9') && !IsWhitespace(s[0]) && s[0] != '-' && s[0] != '+')
    ensures ParseIntPrefix(s) == None
  {
  }
}
