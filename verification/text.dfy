/** String helpers standing in for the JavaScript built-ins the core calls:
    `toLowerCase` (restricted to ASCII letters), `includes`, `Number.prototype.toString`
    for integers, `padStart`, and a decimal reader used to state round trips. */
module Text {
  import opened Options

  /** `toLowerCase` on one character: ASCII upper-case letters become lower-case. */
  function LowerChar(c: char): (r: char)
    ensures !('A' <= r <= 'Z')
    ensures 'a' <= r <= 'z' <==> ('a' <= c <= 'z' || 'A' <= c <= 'Z')
  {
    if 'A' <= c <= 'Z' then (c as int + 32) as char else c
  }

  /** `toLowerCase` on a string, one character at a time. */
  function Lower(s: string): (r: string)
    ensures |r| == |s|
    ensures forall i :: 0 <= i < |s| ==> r[i] == LowerChar(s[i])
  {
    seq(|s|, i requires 0 <= i < |s| => LowerChar(s[i]))
  }

  /** Lower-casing twice is lower-casing once. */
  lemma LowerIdempotent(s: string)
    ensures Lower(Lower(s)) == Lower(s)
  {
    assert forall i :: 0 <= i < |s| ==> LowerChar(LowerChar(s[i])) == LowerChar(s[i]);
  }

  /** `t` occurs in `s` starting at its first character. */
  predicate StartsWith(s: string, t: string) {
    |t| <= |s| && s[..|t|] == t
  }

  /** `s.includes(t)`: `t` occurs somewhere in `s`. */
  predicate Includes(s: string, t: string)
    decreases |s|
  {
    StartsWith(s, t) || (|s| > 0 && Includes(s[1..], t))
  }

  predicate IsDigit(c: char) {
    '0' <= c <= '9'
  }

  predicate AllDigits(s: string) {
    forall c :: c in s ==> IsDigit(c)
  }

  /** Decimal digits as `String` writes a natural number: no leading zero
      unless the number is 0 itself. */
  predicate CanonicalDecimal(s: string) {
    |s| >= 1 && AllDigits(s) && (|s| > 1 ==> s[0] != '0')
  }

  /** `String(n)` of some integer: canonical digits, or a minus sign before
      canonical digits other than `0`. */
  predicate CanonicalInt(s: string) {
    CanonicalDecimal(s) || (|s| >= 2 && s[0] == '-' && CanonicalDecimal(s[1..]) && s[1] != '0')
  }

  function DigitChar(d: nat): (c: char)
    requires d < 10
    ensures IsDigit(c) && c as int - '0' as int == d
  {
    ('0' as int + d) as char
  }

  /** Decimal notation of a natural number, without leading zeros. */
  function NatToDecimal(n: nat): (r: string)
    ensures |r| >= 1 && AllDigits(r)
    ensures r[0] == '0' ==> n == 0
    ensures CanonicalDecimal(r)
    decreases n
  {
    if n < 10 then [DigitChar(n)] else NatToDecimal(n / 10) + [DigitChar(n % 10)]
  }

  /** `String(n)` for an integer `n`: a minus sign, then the digits of `|n|`. */
  function IntToString(n: int): (r: string)
    ensures |r| >= 1
    ensures (r[0] == '-') <==> n < 0
    ensures CanonicalInt(r)
  {
    if n < 0 then "-" + NatToDecimal(-n)
    else
      var r := NatToDecimal(n);
      assert r[0] in r;
      r
  }

  /** The value of a string of decimal digits (leading zeros allowed). */
  function DigitsValue(s: string): nat
    requires AllDigits(s)
  {
    if s == [] then 0
    else
      assert s[|s| - 1] in s;
      DigitsValue(s[..|s| - 1]) * 10 + (s[|s| - 1] as int - '0' as int)
  }

  /** Reads a non-empty string of decimal digits; anything else is rejected. */
  function ParseDecimal(s: string): Option<nat> {
    if |s| > 0 && AllDigits(s) then Some(DigitsValue(s)) else None
  }

  /** Reads an optional minus sign followed by decimal digits. */
  function ParseInt(s: string): Option<int> {
    if |s| > 0 && s[0] == '-' then
      match ParseDecimal(s[1..])
      case Some(n) => Some(-(n as int))
      case None => None
    else
      match ParseDecimal(s)
      case Some(n) => Some(n as int)
      case None => None
  }

  lemma {:induction false} DigitsValueOfDecimal(n: nat)
    ensures DigitsValue(NatToDecimal(n)) == n
    decreases n
  {
    if n >= 10 {
      var r := NatToDecimal(n);
      DigitsValueOfDecimal(n / 10);
      assert r[..|r| - 1] == NatToDecimal(n / 10);
    }
  }

  /** Reading back the decimal notation of `n` gives `n`. */
  lemma NatToDecimalRoundTrip(n: nat)
    ensures ParseDecimal(NatToDecimal(n)) == Some(n)
  {
    DigitsValueOfDecimal(n);
  }

  /** Reading back `String(n)` gives `n`, for every integer. */
  lemma IntToStringRoundTrip(n: int)
    ensures ParseInt(IntToString(n)) == Some(n)
  {
    if n < 0 {
      NatToDecimalRoundTrip(-n);
      assert IntToString(n)[1..] == NatToDecimal(-n);
    } else {
      NatToDecimalRoundTrip(n);
    }
  }

  /** Canonical digits are the decimal notation of their own value. */
  lemma {:induction false} CanonicalDecimalIsNatToDecimal(s: string)
    requires CanonicalDecimal(s)
    ensures s == NatToDecimal(DigitsValue(s))
    decreases |s|
  {
    var init, d := s[..|s| - 1], s[|s| - 1];
    assert d in s;
    if |s| == 1 {
      assert init == [];
    } else {
      assert init[0] == s[0];
      assert forall c :: c in init ==> c in s;
      CanonicalDecimalIsNatToDecimal(init);
      NonZeroLeadValue(init);
      assert s == init + [d];
    }
  }

  /** A digit string that does not start with `0` has a positive value. */
  lemma {:induction false} NonZeroLeadValue(s: string)
    requires |s| >= 1 && AllDigits(s) && s[0] != '0'
    ensures DigitsValue(s) >= 1
    decreases |s|
  {
    var init := s[..|s| - 1];
    assert s[|s| - 1] in s;
    if |s| > 1 {
      assert init[0] == s[0];
      assert forall c :: c in init ==> c in s;
      NonZeroLeadValue(init);
    }
  }

  /** `String(n)` is the only canonical spelling that reads back as `n`. */
  lemma CanonicalIntIsIntToString(s: string, n: int)
    requires CanonicalInt(s) && ParseInt(s) == Some(n)
    ensures s == IntToString(n)
  {
    if CanonicalDecimal(s) {
      assert s[0] in s;
      CanonicalDecimalIsNatToDecimal(s);
    } else {
      CanonicalDecimalIsNatToDecimal(s[1..]);
      NonZeroLeadValue(s[1..]);
      assert s == "-" + s[1..];
    }
  }

  /** `n` copies of `c`. */
  function Repeat(c: char, n: nat): (r: string)
    ensures |r| == n && forall x :: x in r ==> x == c
  {
    if n == 0 then [] else [c] + Repeat(c, n - 1)
  }

  /** `s.padStart(width, fill)` with a one-character fill: `s` itself when it is
      already `width` long, otherwise `s` preceded by enough copies of `fill`. */
  function PadStart(s: string, width: nat, fill: char): (r: string)
    ensures |r| == if |s| >= width then |s| else width
    ensures r[|r| - |s|..] == s
    ensures forall i :: 0 <= i < |r| - |s| ==> r[i] == fill
  {
    if |s| >= width then s
    else
      var z := Repeat(fill, width - |s|);
      assert forall i :: 0 <= i < |z| ==> z[i] in z;
      z + s
  }

  /** Leading zeros do not change the value of a digit string. */
  lemma {:induction false} LeadingZeros(z: string, s: string)
    requires AllDigits(s) && forall c :: c in z ==> c == '0'
    ensures AllDigits(z + s) && DigitsValue(z + s) == DigitsValue(s)
    decreases |s|
  {
    if s == [] {
      assert z + s == z;
      ZerosValue(z);
    } else {
      var t := s[..|s| - 1];
      LeadingZeros(z, t);
      assert (z + s)[..|z + s| - 1] == z + t;
    }
  }

  lemma {:induction false} ZerosValue(z: string)
    requires forall c :: c in z ==> c == '0'
    ensures AllDigits(z) && DigitsValue(z) == 0
    decreases |z|
  {
    if z != [] {
      var init := z[..|z| - 1];
      forall c | c in init ensures c == '0' {
        var k :| 0 <= k < |init| && init[k] == c;
        assert z[k] == c && z[k] in z;
      }
      assert z[|z| - 1] in z;
      ZerosValue(init);
    }
  }
}
