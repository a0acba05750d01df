/**
 * The PHP values a REST request carries and the two PHP tests the plugin
 * applies to them: `is_numeric` (with the numeric value a numeric string
 * compares as) and `empty`.
 */
module PhpValues {
  import opened Wrappers
  import opened PostIds

  datatype PhpValue =
    | PNull
    | PBool(b: bool)
    | PInt(i: int)
    | PStr(s: string)
    | PArray(elems: seq<PhpValue>)

  predicate IsWhitespace(c: char) {
    c == ' ' || c == '\t' || c == '\n' || c == '\r' || c == '\U{0B}' || c == '\U{0C}'
  }

  /** The longest prefix of `s` made of characters satisfying `IsDigit`. */
  function DigitRun(s: string): (r: nat)
    ensures r <= |s|
    ensures forall i :: 0 <= i < r ==> IsDigit(s[i])
    ensures r < |s| ==> !IsDigit(s[r])
  {
    if s != [] && IsDigit(s[0]) then 1 + DigitRun(s[1..]) else 0
  }

  /** The number of leading whitespace characters of `s`. */
  function LeadingSpace(s: string): (r: nat)
    ensures r <= |s|
    ensures forall i :: 0 <= i < r ==> IsWhitespace(s[i])
    ensures r < |s| ==> !IsWhitespace(s[r])
  {
    if s != [] && IsWhitespace(s[0]) then 1 + LeadingSpace(s[1..]) else 0
  }

  /** `s` is nothing but whitespace. */
  predicate AllSpace(s: string) {
    forall i :: 0 <= i < |s| ==> IsWhitespace(s[i])
  }

  function Pow10(e: nat): (r: real)
    ensures r >= 1.0
  {
    if e == 0 then 1.0 else 10.0 * Pow10(e - 1)
  }

  /** The exponent part `[eE][+-]?digits` at the start of `s`, and the
      length it takes. */
  function ParseExponent(s: string): (r: Option<(int, nat)>)
    ensures r.Some? ==> 2 <= r.value.1 <= |s|
  {
    if |s| < 2 || (s[0] != 'e' && s[0] != 'E') then None
    else
      var signed := s[1] == '+' || s[1] == '-';
      var digitsFrom := if signed then 2 else 1;
      var n := DigitRun(s[digitsFrom..]);
      if n == 0 then None
      else
        var magnitude: int := DigitsValue(s[digitsFrom..digitsFrom + n]);
        var value: int := if s[1] == '-' then -magnitude else magnitude;
        Some((value, digitsFrom + n))
  }

  /** The number a numeric string stands for, or None when `is_numeric`
      rejects it: optional surrounding whitespace, an optional sign, digits
      with an optional fraction (at least one digit in all), and an optional
      exponent. */
  function NumericValue(s: string): (r: Option<real>)
  {
    SignedValue(s[LeadingSpace(s)..])
  }

  /** An optional sign, then an unsigned number. */
  function SignedValue(body: string): Option<real>
  {
    if body != [] && (body[0] == '+' || body[0] == '-') then
      var v := UnsignedValue(body[1..]);
      if v.Some? && body[0] == '-' then Some(-v.value) else v
    else UnsignedValue(body)
  }

  /** Digits with an optional fraction, then the exponent and trailing
      whitespace. */
  function UnsignedValue(m: string): Option<real>
  {
    var intLen := DigitRun(m);
    if intLen < |m| && m[intLen] == '.' then
      var fracLen := DigitRun(m[intLen + 1..]);
      var mantissaEnd := intLen + 1 + fracLen;
      if intLen + fracLen == 0 then None
      else
        var mantissa := DigitsValue(m[..intLen]) as real * Pow10(fracLen)
                        + DigitsValue(m[intLen + 1..mantissaEnd]) as real;
        Scaled(mantissa, fracLen, m[mantissaEnd..])
    else if intLen == 0 then None
    else Scaled(DigitsValue(m[..intLen]) as real, 0, m[intLen..])
  }

  /** `mantissa` divided by `10^fracLen` and scaled by the exponent at the
      start of `tail`; whatever follows must be whitespace. */
  function Scaled(mantissa: real, fracLen: nat, tail: string): Option<real>
  {
    var exp := ParseExponent(tail);
    var rest := if exp.Some? then tail[exp.value.1..] else tail;
    if !AllSpace(rest) then None
    else
      var e := (if exp.Some? then exp.value.0 else 0) - fracLen;
      Some(if e >= 0 then mantissa * Pow10(e) else mantissa / Pow10(-e))
  }

  /** `is_numeric($v)`: integers, and numeric strings. */
  predicate IsNumeric(v: PhpValue) {
    match v
    case PInt(_) => true
    case PStr(s) => NumericValue(s).Some?
    case _ => false
  }

  /** The number a numeric value compares as. */
  function NumberOf(v: PhpValue): real
    requires IsNumeric(v)
  {
    match v
    case PInt(i) => i as real
    case PStr(s) => NumericValue(s).value
  }

  /** A post id printed in decimal is a numeric string of that value. */
  lemma {:induction false} DecimalIsNumeric(n: nat)
    ensures NumericValue(Decimal(n)) == Some(n as real)
  {
    var s := Decimal(n);
    assert IsDigit(s[0]);
    assert LeadingSpace(s) == 0;
    assert s[0..] == s;
    assert SignedValue(s) == UnsignedValue(s);
    DigitRunAll(s);
    DecimalValue(n);
    assert s[..|s|] == s;
    assert s[|s|..] == [];
    assert UnsignedValue(s) == Scaled(n as real, 0, []);
    ScaledPlain(n as real);
  }

  /** With no fraction and nothing after the digits, the value is the
      mantissa. */
  lemma ScaledPlain(mantissa: real)
    ensures Scaled(mantissa, 0, []) == Some(mantissa)
  {
    assert ParseExponent([]) == None;
    assert AllSpace([]);
    assert Pow10(0) == 1.0;
  }

  lemma {:induction false} DigitRunAll(s: string)
    requires forall i :: 0 <= i < |s| ==> IsDigit(s[i])
    ensures DigitRun(s) == |s|
  {
    if s != [] {
      DigitRunAll(s[1..]);
    }
  }

  /** A string holding no digit is not numeric. */
  lemma NoDigitNotNumeric(s: string)
    requires forall i :: 0 <= i < |s| ==> !IsDigit(s[i])
    ensures NumericValue(s).None?
  {
    var body := s[LeadingSpace(s)..];
    var m := if body != [] && (body[0] == '+' || body[0] == '-') then body[1..] else body;
    assert forall i :: 0 <= i < |m| ==> !IsDigit(m[i]) by {
      forall i | 0 <= i < |m| ensures !IsDigit(m[i]) {
        assert m[i] in s;
      }
    }
    assert DigitRun(m) == 0;
    if 0 < |m| && m[0] == '.' {
      assert DigitRun(m[1..]) == 0 by {
        if |m| > 1 {
          assert !IsDigit(m[1..][0]);
        }
      }
    }
    assert UnsignedValue(m).None?;
  }

  /** `empty($v)`: null, false, 0, "", "0" and the empty array. */
  predicate Empty(v: PhpValue) {
    match v
    case PNull => true
    case PBool(b) => !b
    case PInt(i) => i == 0
    case PStr(s) => s == "" || s == "0"
    case PArray(a) => a == []
  }

  /** PHP's conversion of a scalar to a string, as `str_replace` applies it
      to each element of an order. */
  function StringOf(v: PhpValue): (r: string)
    ensures v.PStr? ==> r == v.s
    ensures v.PInt? && v.i >= 0 ==> r == Decimal(v.i)
  {
    match v
    case PNull => ""
    case PBool(b) => if b then "1" else ""
    case PInt(i) => if i >= 0 then Decimal(i) else "-" + Decimal(-i)
    case PStr(s) => s
    case PArray(_) => "Array"
  }
}
