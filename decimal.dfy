/** Decimal integers written as text and read back. */
module Decimal {
  import opened Wrappers

  predicate IsDigit(c: char)
  {
    '0' <= c <= '9'
  }

  predicate AllDigits(s: string)
  {
    forall i :: 0 <= i < |s| ==> IsDigit(s[i])
  }

  function DigitChar(d: nat): char
    requires d < 10
  {
    ('0' as int + d) as char
  }

  function DigitValue(c: char): nat
    requires IsDigit(c)
  {
    c as int - '0' as int
  }

  /** The shortest decimal notation of `n`. */
  function NatToString(n: nat): (r: string)
    ensures |r| >= 1 && AllDigits(r)
  {
    if n < 10 then [DigitChar(n)] else NatToString(n / 10) + [DigitChar(n % 10)]
  }

  /** The value of a string of digits. */
  function DigitsToNat(ds: string): nat
    requires AllDigits(ds)
  {
    if ds == [] then 0 else DigitsToNat(ds[..|ds| - 1]) * 10 + DigitValue(ds[|ds| - 1])
  }

  /** A number is the value of its own notation. */
  lemma {:induction false} DigitsOfNat(n: nat)
    ensures DigitsToNat(NatToString(n)) == n
  {
    if n >= 10 {
      DigitsOfNat(n / 10);
      var s := NatToString(n);
      assert s[..|s| - 1] == NatToString(n / 10);
    }
  }

  /** `String(i)` in JavaScript, `str(i)` in Python. */
  function IntToString(i: int): (r: string)
    ensures |r| >= 1 && IsDigit(r[|r| - 1]) && (IsDigit(r[0]) || r[0] == '-')
  {
    if i < 0 then "-" + NatToString(-i) else NatToString(i)
  }

  /** The number of digits at the front of `s`. */
  function DigitSpan(s: string): (k: nat)
    ensures k <= |s| && AllDigits(s[..k])
    ensures k < |s| ==> !IsDigit(s[k])
  {
    if s == [] || !IsDigit(s[0]) then 0
    else
      var k := 1 + DigitSpan(s[1..]);
      assert s[..k] == [s[0]] + s[1..][..k - 1];
      k
  }

  /** Reads the longest run of digits at the front of `s`, if there is one, and returns what follows it. */
  function ParseNat(s: string): (r: Option<(nat, string)>)
    ensures r.Some? ==> |r.value.1| < |s|
  {
    var k := DigitSpan(s);
    if k == 0 then None else Some((DigitsToNat(s[..k]), s[k..]))
  }

  /** `ParseNat` consumes all of `u` exactly when `u` is a non-empty run of digits. */
  lemma ParseNatWhole(u: string)
    ensures (ParseNat(u).Some? && ParseNat(u).value.1 == "") <==> |u| >= 1 && AllDigits(u)
  {
    var k := DigitSpan(u);
    if |u| >= 1 && AllDigits(u) {
      assert k == |u|;
      assert u[..k] == u;
    }
    if ParseNat(u).Some? && ParseNat(u).value.1 == "" {
      assert |u[k..]| == 0;
      assert u[..k] == u;
    }
  }

  /** Reads an optionally negative decimal integer at the front of `s`. */
  function ParseInt(s: string): (r: Option<(int, string)>)
    ensures r.Some? ==> |r.value.1| < |s|
  {
    if s != [] && s[0] == '-' then
      match ParseNat(s[1..])
      case None => None
      case Some((n, rest)) => Some((-(n as int), rest))
    else
      match ParseNat(s)
      case None => None
      case Some((n, rest)) => Some((n as int, rest))
  }

  lemma {:induction false} DigitSpanOf(ds: string, rest: string)
    requires AllDigits(ds)
    requires rest == [] || !IsDigit(rest[0])
    ensures DigitSpan(ds + rest) == |ds|
  {
    if ds != [] {
      DigitSpanOf(ds[1..], rest);
      assert (ds + rest)[1..] == ds[1..] + rest;
    } else {
      assert ds + rest == rest;
    }
  }

  /** Any run of digits, leading zeros included, reads as its value with nothing left over. */
  lemma ParseNatOfDigits(ds: string)
    requires |ds| >= 1 && AllDigits(ds)
    ensures ParseNat(ds) == Some((DigitsToNat(ds), ""))
  {
    DigitSpanOf(ds, "");
    assert ds + "" == ds;
    assert ds[..|ds|] == ds;
    assert ds[|ds|..] == "";
  }

  /** Reading back a written natural number stops exactly where the number ends. */
  lemma ParseNatOf(n: nat, rest: string)
    requires rest == [] || !IsDigit(rest[0])
    ensures ParseNat(NatToString(n) + rest) == Some((n, rest))
  {
    var ds := NatToString(n);
    DigitSpanOf(ds, rest);
    assert (ds + rest)[..|ds|] == ds;
    assert (ds + rest)[|ds|..] == rest;
    DigitsOfNat(n);
  }

  /** Reading back a written integer stops exactly where the number ends. */
  lemma ParseIntOf(i: int, rest: string)
    requires rest == [] || !IsDigit(rest[0])
    ensures ParseInt(IntToString(i) + rest) == Some((i, rest))
  {
    if i < 0 {
      ParseNegOf(-i, rest);
      assert IntToString(i) == "-" + NatToString(-i);
    } else {
      ParseNonNegOf(i, rest);
    }
  }

  lemma ParseNegOf(n: nat, rest: string)
    requires rest == [] || !IsDigit(rest[0])
    ensures ParseInt("-" + NatToString(n) + rest) == Some((-(n as int), rest))
  {
    var t := NatToString(n) + rest;
    ParseNatOf(n, rest);
    assert "-" + NatToString(n) + rest == ['-'] + t;
    assert (['-'] + t)[1..] == t;
  }

  lemma ParseNonNegOf(n: nat, rest: string)
    requires rest == [] || !IsDigit(rest[0])
    ensures ParseInt(NatToString(n) + rest) == Some((n as int, rest))
  {
    var t := NatToString(n) + rest;
    ParseNatOf(n, rest);
    assert t[0] == NatToString(n)[0];
  }
}
