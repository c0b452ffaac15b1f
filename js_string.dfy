/** The pieces of ECMAScript string semantics the program relies on: the white-space set
    that `\s` matches and `String.prototype.trim` removes, `trim` itself, the decimal
    form of integers that template literals produce, and the test for an "array index"
    property key, which decides the order `Object.entries` lists keys in. */
module JsString {

  /** WhiteSpace and LineTerminator code points (ECMA-262, 2023 edition, sections 12.2
      and 12.3): tab, vertical tab, form feed, space, no-break space, zero-width
      no-break space, the other space separators, LF, CR, LS and PS. */
  predicate IsWhiteSpace(c: char) {
    c == '\t' || c == '\n' || c == '\U{000B}' || c == '\U{000C}' || c == '\r' || c == ' '
    || c == '\U{00A0}' || c == '\U{1680}' || ('\U{2000}' <= c <= '\U{200A}')
    || c == '\U{2028}' || c == '\U{2029}' || c == '\U{202F}' || c == '\U{205F}'
    || c == '\U{3000}' || c == '\U{FEFF}'
  }

  /** Neither end of `s` is white space. */
  ghost predicate Trimmed(s: string) {
    s == [] || (!IsWhiteSpace(s[0]) && !IsWhiteSpace(s[|s| - 1]))
  }

  /** The suffix of `s` left after dropping its leading white space. */
  function TrimStart(s: string): (r: string)
    ensures |r| <= |s| && r == s[|s| - |r|..]
    ensures forall i :: 0 <= i < |s| - |r| ==> IsWhiteSpace(s[i])
    ensures r == [] || !IsWhiteSpace(r[0])
  {
    if s != [] && IsWhiteSpace(s[0]) then TrimStart(s[1..]) else s
  }

  /** The prefix of `s` left after dropping its trailing white space. */
  function TrimEnd(s: string): (r: string)
    ensures r <= s
    ensures forall i :: |r| <= i < |s| ==> IsWhiteSpace(s[i])
    ensures r == [] || !IsWhiteSpace(r[|r| - 1])
  {
    if s != [] && IsWhiteSpace(s[|s| - 1]) then TrimEnd(s[..|s| - 1]) else s
  }

  /** `s.trim()`: white space removed from both ends. */
  function Trim(s: string): (r: string)
    ensures Trimmed(r)
  {
    var t := TrimStart(s);
    var r := TrimEnd(t);
    assert r != [] ==> r[0] == t[0];
    r
  }

  /** What `trim` keeps is one contiguous piece of `s`, starting where TrimStart does. */
  lemma TrimIsInfix(s: string) returns (a: nat)
    ensures a == |s| - |TrimStart(s)|
    ensures a + |Trim(s)| <= |s| && Trim(s) == s[a..a + |Trim(s)|]
  {
    a := PrefixOfSuffix(s, TrimStart(s), Trim(s));
  }

  /** Proof step: a prefix of a suffix is an infix. */
  lemma PrefixOfSuffix(s: string, t: string, r: string) returns (a: nat)
    requires |t| <= |s| && t == s[|s| - |t|..] && r <= t
    ensures a == |s| - |t| && a + |r| <= |s| && r == s[a..a + |r|]
  {
    a := |s| - |t|;
  }

  /** What `trim` removes from either end is white space. */
  lemma TrimRemovesWhiteSpace(s: string)
    ensures forall i :: 0 <= i < |s| - |TrimStart(s)| ==> IsWhiteSpace(s[i])
    ensures forall i :: |s| - |TrimStart(s)| + |Trim(s)| <= i < |s| ==> IsWhiteSpace(s[i])
  {
    var t := TrimStart(s);
    var r := Trim(s);
    var a := |s| - |t|;
    assert r == TrimEnd(t);
    assert t == s[a..];
    forall i | a + |r| <= i < |s| ensures IsWhiteSpace(s[i]) {
      assert s[i] == t[i - a];
      assert IsWhiteSpace(t[i - a]);
    }
  }

  /** A string that neither starts nor ends with white space is its own trim. */
  lemma {:induction false} TrimOfTrimmed(s: string)
    requires Trimmed(s)
    ensures Trim(s) == s
  {
  }

  /** Leading white space followed by text that does not start with white space: all of
      it, and only it, is dropped. */
  lemma {:induction false} TrimStartSkips(w: string, b: string)
    requires forall i :: 0 <= i < |w| ==> IsWhiteSpace(w[i])
    requires b == [] || !IsWhiteSpace(b[0])
    ensures TrimStart(w + b) == b
    decreases |w|
  {
    if w == [] {
      assert w + b == b;
    } else {
      assert (w + b)[0] == w[0];
      assert (w + b)[1..] == w[1..] + b;
      TrimStartSkips(w[1..], b);
    }
  }

  /** `trim` is idempotent. */
  lemma TrimIdempotent(s: string)
    ensures Trim(Trim(s)) == Trim(s)
  {
    TrimOfTrimmed(Trim(s));
  }

  // ---------------------------------------------------------------------------
  // Decimal digits
  // ---------------------------------------------------------------------------

  predicate IsDigit(c: char) { '0' <= c <= '9' }

  ghost predicate AllDigits(s: string) {
    forall i :: 0 <= i < |s| ==> IsDigit(s[i])
  }

  /** The value of a string of decimal digits, read left to right. */
  function DigitsValue(s: string): nat
    requires forall i :: 0 <= i < |s| ==> IsDigit(s[i])
  {
    if s == [] then 0
    else
      assert IsDigit(s[|s| - 1]);
      DigitsValue(s[..|s| - 1]) * 10 + (s[|s| - 1] as int - '0' as int)
  }

  function DigitChar(d: nat): (c: char)
    requires d < 10
    ensures IsDigit(c) && c as int - '0' as int == d
  {
    (d + '0' as int) as char
  }

  /** The canonical decimal form of a natural number: digits only, no leading zero. */
  function NatToString(n: nat): (s: string)
    ensures |s| > 0 && AllDigits(s) && (s[0] == '0' ==> |s| == 1)
    ensures DigitsValue(s) == n
  {
    if n < 10 then [DigitChar(n)]
    else
      var s := NatToString(n / 10) + [DigitChar(n % 10)];
      assert s[..|s| - 1] == NatToString(n / 10);
      s
  }

  /** `${i}` for an integer `i`. */
  function IntToString(i: int): (s: string)
    ensures |s| > 0
    ensures i < 0 <==> s[0] == '-'
    ensures i < 0 ==> s[1..] == NatToString(-i)
    ensures i >= 0 ==> s == NatToString(i)
  {
    if i < 0 then "-" + NatToString(-i) else NatToString(i)
  }

  /** An array index (ECMA-262, section 6.1.7): the canonical decimal form of an
      integer below 2^32 - 1. `OrdinaryOwnPropertyKeys` lists these keys first. */
  predicate IsArrayIndex(s: string) {
    && |s| > 0
    && (forall i :: 0 <= i < |s| ==> IsDigit(s[i]))
    && (s[0] != '0' || |s| == 1)
    && DigitsValue(s) < 0xFFFF_FFFF
  }

  /** Exactly the decimal forms of 0 .. 2^32 - 2 are array indices. */
  lemma ArrayIndexIsNatToString(s: string)
    requires IsArrayIndex(s)
    ensures NatToString(DigitsValue(s)) == s
  {
    CanonicalDigitsUnique(s, NatToString(DigitsValue(s)));
  }

  lemma NatToStringIsArrayIndex(n: nat)
    requires n < 0xFFFF_FFFF
    ensures IsArrayIndex(NatToString(n))
  {
  }

  /** Two canonical digit strings with the same value are equal. */
  lemma {:induction false} CanonicalDigitsUnique(a: string, b: string)
    requires |a| > 0 && AllDigits(a) && (a[0] == '0' ==> |a| == 1)
    requires |b| > 0 && AllDigits(b) && (b[0] == '0' ==> |b| == 1)
    requires DigitsValue(a) == DigitsValue(b)
    ensures a == b
  {
    var x, y := a[..|a| - 1], b[..|b| - 1];
    var da, db := a[|a| - 1] as int - '0' as int, b[|b| - 1] as int - '0' as int;
    assert DigitsValue(a) == DigitsValue(x) * 10 + da;
    assert DigitsValue(b) == DigitsValue(y) * 10 + db;
    assert da == db && DigitsValue(x) == DigitsValue(y);
    if |x| == 0 || |y| == 0 {
      if |x| > 0 { LeadingDigitPositive(x); }
      if |y| > 0 { LeadingDigitPositive(y); }
    } else {
      CanonicalDigitsUnique(x, y);
    }
    assert a == x + [a[|a| - 1]] && b == y + [b[|b| - 1]];
  }

  /** A digit string of two or more digits without a leading zero has a positive value. */
  lemma {:induction false} LeadingDigitPositive(s: string)
    requires |s| > 0 && AllDigits(s) && s[0] != '0'
    ensures DigitsValue(s) > 0
  {
    if |s| > 1 {
      LeadingDigitPositive(s[..|s| - 1]);
    }
  }
}
