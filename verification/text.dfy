/** Character and string helpers shared by the link matcher and the log formatter:
    ASCII case mapping, `String.prototype.padEnd`, and the decimal rendering
    JavaScript uses when an integer is interpolated into a template literal. */
module Text {
  import opened Wrappers

  /** ASCII lower-casing; every other character is left alone. */
  function LowerAscii(c: char): char {
    if 'A' <= c <= 'Z' then (c as int + 32) as char else c
  }

  /** ASCII upper-casing; every other character is left alone. */
  function UpperAscii(c: char): char {
    if 'a' <= c <= 'z' then (c as int - 32) as char else c
  }

  /** `toUpperCase` restricted to the ASCII names it is applied to here: no
      lower-case ASCII letter is left, and the text still reads the same when
      case is ignored. */
  function ToUpperAscii(s: string): (t: string)
    ensures |t| == |s|
    ensures forall k :: 0 <= k < |t| ==> !('a' <= t[k] <= 'z')
    ensures forall k :: 0 <= k < |t| ==> LowerAscii(t[k]) == LowerAscii(s[k])
  {
    seq(|s|, k requires 0 <= k < |s| => UpperAscii(s[k]))
  }

  /** Upper-casing twice is upper-casing once. */
  lemma ToUpperAsciiIdempotent(s: string)
    ensures ToUpperAscii(ToUpperAscii(s)) == ToUpperAscii(s)
  {
  }

  /** `p` occurs in `s` starting at index `k`. */
  predicate OccursAt(s: string, p: string, k: nat) {
    k + |p| <= |s| && s[k..k + |p|] == p
  }

  /** An occurrence survives putting text before it, shifted by that text's length. */
  lemma OccursAtAfter(a: string, s: string, p: string, k: nat)
    requires OccursAt(s, p, k)
    ensures OccursAt(a + s, p, |a| + k)
  {
    assert (a + s)[|a| + k..|a| + k + |p|] == s[k..k + |p|];
  }

  /** An occurrence in a suffix is an occurrence in the whole text. */
  lemma OccursInSuffix(s: string, n: nat, p: string, k: nat)
    requires n <= |s| && OccursAt(s[n..], p, k)
    ensures OccursAt(s, p, n + k)
  {
    assert s[n + k..n + k + |p|] == s[n..][k..k + |p|];
  }

  /** An occurrence survives putting text after it. */
  lemma OccursAtBefore(s: string, b: string, p: string, k: nat)
    requires OccursAt(s, p, k)
    ensures OccursAt(s + b, p, k)
  {
    assert (s + b)[k..k + |p|] == s[k..k + |p|];
  }

  /** `s.padEnd(width)` with the default filler, a single space. */
  function PadEnd(s: string, width: nat): (t: string)
    ensures |t| == if |s| >= width then |s| else width
    ensures t[..|s|] == s
    ensures forall k :: |s| <= k < |t| ==> t[k] == ' '
  {
    if |s| >= width then s else s + seq(width - |s|, _ => ' ')
  }

  predicate IsDigit(c: char) {
    '0' <= c <= '9'
  }

  predicate AllDigits(s: string) {
    forall k :: 0 <= k < |s| ==> IsDigit(s[k])
  }

  function DigitChar(d: nat): (c: char)
    requires d < 10
    ensures IsDigit(c)
  {
    ('0' as int + d) as char
  }

  function DigitValue(c: char): nat
    requires IsDigit(c)
  {
    c as int - '0' as int
  }

  /** Shortest decimal numeral of a natural number. */
  function NatToString(n: nat): (s: string)
    ensures |s| > 0 && AllDigits(s)
    ensures s[0] == '0' ==> n == 0 && s == "0"
    decreases n
  {
    if n < 10 then [DigitChar(n)] else NatToString(n / 10) + [DigitChar(n % 10)]
  }

  /** `${n}` for an integer-valued number of magnitude below 2^53: a minus sign
      for negatives, no leading zeros. Larger numbers are printed in full here. */
  function IntToString(n: int): string {
    if n < 0 then "-" + NatToString(-n) else NatToString(n)
  }

  /** Value of a string of decimal digits, most significant first. */
  function ParseDigits(s: string): nat
    requires AllDigits(s)
    decreases |s|
  {
    if s == [] then 0 else ParseDigits(s[..|s| - 1]) * 10 + DigitValue(s[|s| - 1])
  }

  /** Reads back an optionally signed decimal integer; the partner of IntToString. */
  function ParseInt(s: string): Option<int> {
    if |s| > 1 && s[0] == '-' && AllDigits(s[1..]) then Some(0 - ParseDigits(s[1..]) as int)
    else if |s| > 0 && AllDigits(s) then Some(ParseDigits(s))
    else None
  }

  lemma {:induction false} ParseNatToString(n: nat)
    ensures ParseDigits(NatToString(n)) == n
    decreases n
  {
    if n >= 10 {
      var s := NatToString(n);
      ParseNatToString(n / 10);
      assert s[..|s| - 1] == NatToString(n / 10);
    }
  }

  /** Rendering an integer and reading it back gives the same integer. */
  lemma IntToStringRoundTrip(n: int)
    ensures ParseInt(IntToString(n)) == Some(n)
  {
    if n < 0 {
      ParseNegative(n);
    } else {
      ParseNonNegative(n);
    }
  }

  lemma ParseNonNegative(n: nat)
    ensures ParseInt(NatToString(n)) == Some(n)
  {
    var s := NatToString(n);
    assert IsDigit(s[0]);
    ParseNatToString(n);
  }

  lemma ParseNegative(n: int)
    requires n < 0
    ensures ParseInt("-" + NatToString(-n)) == Some(n)
  {
    var d := NatToString(-n);
    var s := "-" + d;
    assert |s| > 1 && s[0] == '-' && s[1..] == d;
    ParseNatToString(-n);
  }

  /** Distinct integers render as distinct strings. */
  lemma IntToStringInjective(a: int, b: int)
    requires IntToString(a) == IntToString(b)
    ensures a == b
  {
    IntToStringRoundTrip(a);
    IntToStringRoundTrip(b);
  }
}
