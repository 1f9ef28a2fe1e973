/** Exact decimals as `java.math.BigDecimal` holds them: an unscaled integer
    and a scale, the value being unscaled * 10^-scale. Only the plain
    notation is parsed (no exponent). */
module Decimals {
  import opened Wrappers

  datatype Decimal = Decimal(unscaled: int, scale: nat)

  predicate IsDigit(c: char) {
    '0' <= c <= '9'
  }

  predicate AllDigits(s: string) {
    forall i :: 0 <= i < |s| ==> IsDigit(s[i])
  }

  /** The number a string of decimal digits denotes, most significant first. */
  function DigitsValue(s: string): nat
    requires AllDigits(s)
  {
    if s == [] then 0 else DigitsValue(s[..|s| - 1]) * 10 + (s[|s| - 1] as int - '0' as int)
  }

  /** Index of the first '.', or |s| when there is none. */
  function DotIndex(s: string): (k: nat)
    ensures k <= |s|
    ensures k < |s| ==> s[k] == '.'
    ensures forall i :: 0 <= i < k ==> s[i] != '.'
  {
    if s == [] || s[0] == '.' then 0 else 1 + DotIndex(s[1..])
  }

  /** Unsigned part of the BigDecimal grammar: digits, optionally a point and
      more digits, with at least one digit in all. */
  function ParseUnsigned(s: string): Option<Decimal> {
    var k := DotIndex(s);
    var whole := s[..k];
    var fraction := if k < |s| then s[k + 1..] else "";
    if AllDigits(whole) && AllDigits(fraction) && |whole| + |fraction| > 0 then
      Some(Decimal(DigitsValue(whole + fraction), |fraction|))
    else
      None
  }

  /** `new BigDecimal(s)`: an optional sign, then the unsigned part; `None`
      stands for the NumberFormatException the constructor throws. The empty
      string, a lone sign or a lone point are all rejected. */
  function ParseDecimal(s: string): (r: Option<Decimal>)
    ensures |s| == 0 ==> r == None
    ensures r.Some? ==> exists i :: 0 <= i < |s| && IsDigit(s[i])
  {
    if |s| > 0 && (s[0] == '-' || s[0] == '+') then
      match ParseUnsigned(s[1..])
      case None => None
      case Some(d) => Some(if s[0] == '-' then Decimal(-d.unscaled, d.scale) else d)
    else
      ParseUnsigned(s)
  }

  /** The shortest digit string of n ("0" for zero). */
  function DigitString(n: nat): (s: string)
    ensures |s| > 0 && AllDigits(s)
  {
    if n < 10 then [('0' as int + n) as char] else DigitString(n / 10) + [('0' as int + n % 10) as char]
  }

  function Zeros(n: nat): (s: string)
    ensures |s| == n && AllDigits(s)
  {
    if n == 0 then "" else "0" + Zeros(n - 1)
  }

  /** `BigDecimal.toPlainString()` for a non-negative scale: the digits of the
      magnitude, padded so that at least one digit precedes the point. */
  function ToPlainString(d: Decimal): string {
    (if d.unscaled < 0 then "-" else "") + PlainDigits(Magnitude(d), d.scale)
  }

  function Magnitude(d: Decimal): nat {
    if d.unscaled < 0 then -d.unscaled else d.unscaled
  }

  /** The unsigned rendering of m * 10^-scale. */
  function PlainDigits(m: nat, scale: nat): string {
    var padded := Padded(m, scale);
    var k := |padded| - scale;
    WithPoint(padded[..k], padded[k..])
  }

  /** Digits before and after a decimal point; no point when nothing follows it. */
  function WithPoint(whole: string, fraction: string): string {
    whole + (if |fraction| > 0 then "." + fraction else "")
  }

  lemma {:induction false} DigitStringValue(n: nat)
    ensures DigitsValue(DigitString(n)) == n
  {
    if n >= 10 {
      DigitStringValue(n / 10);
      var s := DigitString(n);
      assert s[..|s| - 1] == DigitString(n / 10);
    }
  }

  lemma {:induction false} LeadingZerosValue(z: string, s: string)
    requires AllDigits(z) && AllDigits(s)
    requires forall i :: 0 <= i < |z| ==> z[i] == '0'
    ensures AllDigits(z + s)
    ensures DigitsValue(z + s) == DigitsValue(s)
  {
    if s == [] {
      assert z + s == z;
      ZerosValue(z);
    } else {
      var t := z + s;
      assert t[..|t| - 1] == z + s[..|s| - 1];
      LeadingZerosValue(z, s[..|s| - 1]);
    }
  }

  lemma {:induction false} ZerosValue(z: string)
    requires AllDigits(z)
    requires forall i :: 0 <= i < |z| ==> z[i] == '0'
    ensures DigitsValue(z) == 0
  {
    if z != [] {
      ZerosValue(z[..|z| - 1]);
    }
  }

  lemma {:induction false} ZerosAreZero(n: nat)
    ensures forall i :: 0 <= i < n ==> Zeros(n)[i] == '0'
  {
    if n > 0 {
      ZerosAreZero(n - 1);
      assert Zeros(n) == "0" + Zeros(n - 1);
    }
  }

  /** The digits of the magnitude, zero-padded to more than `scale` digits. */
  function Padded(m: nat, scale: nat): (p: string)
    ensures AllDigits(p) && |p| > scale
  {
    var digits := DigitString(m);
    if |digits| <= scale then Zeros(scale + 1 - |digits|) + digits else digits
  }

  lemma {:induction false} PaddedValue(m: nat, scale: nat)
    ensures DigitsValue(Padded(m, scale)) == m
  {
    var digits := DigitString(m);
    DigitStringValue(m);
    if |digits| <= scale {
      ZerosAreZero(scale + 1 - |digits|);
      LeadingZerosValue(Zeros(scale + 1 - |digits|), digits);
    }
  }

  /** A point between two digit strings is where ParseUnsigned splits. */
  lemma {:induction false} ParseUnsignedPoint(whole: string, fraction: string)
    requires AllDigits(whole) && AllDigits(fraction) && |whole| > 0
    ensures AllDigits(whole + fraction)
    ensures ParseUnsigned(WithPoint(whole, fraction)) == Some(Decimal(DigitsValue(whole + fraction), |fraction|))
  {
    if |fraction| > 0 {
      assert WithPoint(whole, fraction) == whole + "." + fraction;
      ParseUnsignedSplit(whole, fraction);
    } else {
      ParseUnsignedWhole(whole);
      assert WithPoint(whole, fraction) == whole;
      assert whole + fraction == whole;
    }
  }

  lemma {:induction false} ParseUnsignedSplit(whole: string, fraction: string)
    requires AllDigits(whole) && AllDigits(fraction) && |whole| > 0 && |fraction| > 0
    ensures AllDigits(whole + fraction)
    ensures ParseUnsigned(whole + "." + fraction) == Some(Decimal(DigitsValue(whole + fraction), |fraction|))
  {
    var body := whole + "." + fraction;
    var k := |whole|;
    assert body[k] == '.';
    assert forall i :: 0 <= i < k ==> body[i] == whole[i];
    assert DotIndex(body) == k;
    assert body[..k] == whole;
    assert body[k + 1..] == fraction;
  }

  lemma {:induction false} ParseUnsignedWhole(whole: string)
    requires AllDigits(whole) && |whole| > 0
    ensures ParseUnsigned(whole) == Some(Decimal(DigitsValue(whole), 0))
  {
    assert DotIndex(whole) == |whole|;
    assert whole[..|whole|] == whole;
    assert whole + "" == whole;
  }

  /** A leading digit means there is no sign. */
  lemma {:induction false} ParseDecimalUnsigned(body: string)
    requires |body| > 0 && IsDigit(body[0])
    ensures ParseDecimal(body) == ParseUnsigned(body)
  {
  }

  /** A leading '-' negates the unsigned value that follows it. */
  lemma {:induction false} ParseDecimalNegative(body: string, d: Decimal)
    requires ParseUnsigned(body) == Some(d)
    ensures ParseDecimal("-" + body) == Some(Decimal(-d.unscaled, d.scale))
  {
    assert ("-" + body)[1..] == body;
  }

  /** Putting a point `scale` digits from the end of a digit string renders
      a decimal with that scale, which starts with a digit and parses back. */
  lemma {:induction false} ParsePointed(p: string, scale: nat)
    requires AllDigits(p) && |p| > scale
    ensures var k := |p| - scale;
      |WithPoint(p[..k], p[k..])| > 0 && IsDigit(WithPoint(p[..k], p[k..])[0])
      && ParseUnsigned(WithPoint(p[..k], p[k..])) == Some(Decimal(DigitsValue(p), scale))
  {
    var k := |p| - scale;
    var whole := p[..k];
    var fraction := p[k..];
    assert whole + fraction == p;
    ParseUnsignedPoint(whole, fraction);
    assert WithPoint(whole, fraction)[0] == whole[0];
  }

  /** The unsigned rendering starts with a digit and parses back. */
  lemma {:induction false} ParsePlainDigits(m: nat, scale: nat)
    ensures |PlainDigits(m, scale)| > 0 && IsDigit(PlainDigits(m, scale)[0])
    ensures ParseUnsigned(PlainDigits(m, scale)) == Some(Decimal(m, scale))
  {
    var p := Padded(m, scale);
    var k := |p| - scale;
    assert PlainDigits(m, scale) == WithPoint(p[..k], p[k..]);
    PaddedValue(m, scale);
    ParsePointed(p, scale);
  }

  /** Round trip: parsing the plain rendering of any decimal gives it back,
      unscaled value and scale alike. */
  lemma {:induction false} ParsePlainString(d: Decimal)
    ensures ParseDecimal(ToPlainString(d)) == Some(d)
  {
    var body := PlainDigits(Magnitude(d), d.scale);
    ParsePlainDigits(Magnitude(d), d.scale);
    if d.unscaled < 0 {
      SignedRendering(body, true);
      ParseDecimalNegative(body, Decimal(Magnitude(d), d.scale));
    } else {
      SignedRendering(body, false);
      ParseDecimalUnsigned(body);
    }
  }

  lemma {:induction false} SignedRendering(body: string, negative: bool)
    ensures (if negative then "-" else "") + body == if negative then "-" + body else body
  {
    if !negative {
      assert "" + body == body;
    }
  }

  /** The empty text of an empty element is not a decimal. */
  lemma {:induction false} EmptyIsNotDecimal()
    ensures ParseDecimal("") == None
  {
  }
}
