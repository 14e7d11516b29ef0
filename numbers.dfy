/** The number conversions the pipeline applies to text: JavaScript's
    `parseInt` (radix 10), `parseFloat` and `Number`, Python's `int`,
    `String(n)` for integers, and `Math.round`. Numbers are exact: integers are
    unbounded and the values `parseFloat` and `Number` produce are reals.
    `None` plays the part of `NaN`. */
module Numbers {
  import opened Base
  import opened Text

  predicate IsDigit(c: char) {
    '0' <= c <= '9'
  }

  predicate AllDigits(s: string) {
    forall i :: 0 <= i < |s| ==> IsDigit(s[i])
  }

  function DigitValue(c: char): nat
    requires IsDigit(c)
  {
    (c as int) - ('0' as int)
  }

  /** The value of a string of decimal digits (0 for the empty string). */
  function DigitsValue(s: string): nat
    requires AllDigits(s)
  {
    if s == [] then 0 else DigitsValue(s[..|s| - 1]) * 10 + DigitValue(s[|s| - 1])
  }

  function Pow10(e: nat): (p: nat)
    ensures p >= 1
  {
    if e == 0 then 1 else 10 * Pow10(e - 1)
  }

  /** `k` digits never exceed `10^k - 1`. */
  lemma {:induction false} DigitsValueBound(s: string)
    requires AllDigits(s)
    ensures DigitsValue(s) < Pow10(|s|)
  {
    if s != [] {
      DigitsValueBound(s[..|s| - 1]);
    }
  }

  function DigitChar(d: nat): (c: char)
    requires d < 10
    ensures IsDigit(c) && DigitValue(c) == d
  {
    ('0' as int + d) as char
  }

  /** `String(n)` for a non-negative integer: its decimal digits, no leading zero. */
  function NatToString(n: nat): (s: string)
    ensures s != [] && AllDigits(s)
  {
    if n < 10 then [DigitChar(n)] else NatToString(n / 10) + [DigitChar(n % 10)]
  }

  /** Reading back the digits `String(n)` writes gives `n`. */
  lemma {:induction false} NatToStringValue(n: nat)
    ensures DigitsValue(NatToString(n)) == n
  {
    if n >= 10 {
      var s := NatToString(n);
      NatToStringValue(n / 10);
      assert s[..|s| - 1] == NatToString(n / 10);
    }
  }

  /** `String(i)` for an integer. */
  function IntToString(i: int): string
  {
    if i < 0 then "-" + NatToString(-i) else NatToString(i)
  }

  /** Length of the longest prefix of `s` made of digits. */
  function DigitRun(s: string): (n: nat)
    ensures n <= |s| && AllDigits(s[..n])
    ensures n < |s| ==> !IsDigit(s[n])
  {
    if s != [] && IsDigit(s[0]) then
      var n := 1 + DigitRun(s[1..]);
      assert s[..n] == [s[0]] + s[1..][..n - 1];
      n
    else 0
  }

  lemma {:induction false} DigitRunAll(s: string)
    requires AllDigits(s)
    ensures DigitRun(s) == |s|
  {
    if s != [] {
      DigitRunAll(s[1..]);
    }
  }

  /** An optional leading sign: whether it is `-`, and the text after it. */
  function Unsigned(t: string): (r: (bool, string))
    ensures r.1 == t || (t != [] && r.1 == t[1..])
  {
    if t != [] && (t[0] == '-' || t[0] == '+') then (t[0] == '-', t[1..]) else (false, t)
  }

  function Negate(neg: bool, x: int): int {
    if neg then -x else x
  }

  /** `parseInt(s)`: skip leading whitespace, read an optional sign and the
      longest run of digits after it; `NaN` when that run is empty. */
  function ParseInt(s: string): Option<int>
  {
    var (neg, u) := Unsigned(TrimStart(s));
    var n := DigitRun(u);
    if n == 0 then None else Some(Negate(neg, DigitsValue(u[..n])))
  }

  /** The decimal mantissa at the start of `u`: `digits`, `digits.digits?` or
      `.digits`; returns how many characters it spans (0 when there is none)
      and its value. */
  function Mantissa(u: string): (m: (nat, real))
    ensures m.0 <= |u|
  {
    var a := DigitRun(u);
    if a < |u| && u[a] == '.' then
      var f := u[a + 1..];
      var b := DigitRun(f);
      if a + b == 0 then (0, 0.0)
      else (a + 1 + b, DigitsValue(u[..a]) as real + DigitsValue(f[..b]) as real / Pow10(b) as real)
    else if a == 0 then (0, 0.0)
    else (a, DigitsValue(u[..a]) as real)
  }

  /** The longest unsigned decimal literal at the start of `u` (a mantissa and
      an optional exponent `e`/`E`, sign, digits): its length (0 when there is
      none) and its value. */
  function DecimalPrefix(u: string): (d: (nat, real))
    ensures d.0 <= |u|
  {
    var (p, v) := Mantissa(u);
    if p == 0 then (0, 0.0)
    else if p < |u| && (u[p] == 'e' || u[p] == 'E') then
      var (negExp, x) := Unsigned(u[p + 1..]);
      var k := DigitRun(x);
      if k == 0 then (p, v)
      else
        var scale := Pow10(DigitsValue(x[..k])) as real;
        (p + 1 + (|u| - p - 1 - |x|) + k, if negExp then v / scale else v * scale)
    else (p, v)
  }

  function NegateReal(neg: bool, x: real): real {
    if neg then -x else x
  }

  /** `parseFloat(s)`: skip leading whitespace, read an optional sign and the
      longest decimal literal after it; `NaN` when there is none. */
  function ParseFloat(s: string): Option<real>
  {
    var (neg, u) := Unsigned(TrimStart(s));
    var (len, v) := DecimalPrefix(u);
    if len == 0 then None else Some(NegateReal(neg, v))
  }

  /** `Number(s)` on a string: the empty or all-blank string is 0; otherwise the
      trimmed text must be, as a whole, an optionally signed decimal literal. */
  function JsNumber(s: string): Option<real>
  {
    var t := Trim(s);
    if t == [] then Some(0.0)
    else
      var (neg, u) := Unsigned(t);
      var (len, v) := DecimalPrefix(u);
      if 0 < len == |u| then Some(NegateReal(neg, v)) else None
  }

  /** Python's `int(s)`: surrounding whitespace, an optional sign, then one or
      more digits and nothing else; anything else raises (`None`). */
  function PyInt(s: string): Option<int>
  {
    var (neg, u) := Unsigned(Trim(s));
    if u != [] && AllDigits(u) then Some(Negate(neg, DigitsValue(u))) else None
  }

  /** `Math.round(x)`: the integer nearest to `x`, halves going up. */
  function Round(x: real): (r: int)
    ensures r as real - 0.5 <= x < r as real + 0.5
  {
    (x + 0.5).Floor
  }

  /** `String(i)` has no surrounding whitespace and starts with a digit or `-`. */
  lemma IntToStringShape(i: int)
    ensures IntToString(i) != [] && Trim(IntToString(i)) == IntToString(i)
    ensures TrimStart(IntToString(i)) == IntToString(i)
  {
    var s := IntToString(i);
    assert !IsSpace(s[0]) && !IsSpace(s[|s| - 1]);
    TrimTrimmed(s);
  }

  /** `String(i)` holds no comma. */
  lemma IntToStringNoComma(i: int)
    ensures ',' !in IntToString(i)
  {
    var digits := NatToString(if i < 0 then -i else i);
    assert forall k :: 0 <= k < |digits| ==> IsDigit(digits[k]);
  }

  /** `parseInt(String(i)) == i`. */
  lemma IntToStringParseInt(i: int)
    ensures ParseInt(IntToString(i)) == Some(i)
  {
    var s := IntToString(i);
    var m: nat := if i < 0 then -i else i;
    var digits := NatToString(m);
    IntToStringShape(i);
    NatToStringValue(m);
    DigitRunAll(digits);
    assert Unsigned(TrimStart(s)) == (i < 0, digits);
    assert digits[..|digits|] == digits;
    assert Negate(i < 0, DigitsValue(digits)) == i;
  }

  /** Python's `int(str(i)) == i`. */
  lemma IntToStringPyInt(i: int)
    ensures PyInt(IntToString(i)) == Some(i)
  {
    var s := IntToString(i);
    var m: nat := if i < 0 then -i else i;
    var digits := NatToString(m);
    assert Trim(s) == s by {
      IntToStringShape(i);
    }
    assert Unsigned(s) == (i < 0, digits);
    assert DigitsValue(digits) == m by {
      NatToStringValue(m);
    }
  }

  /** A plain string of digits is, as a whole, a decimal literal with its value. */
  lemma DigitsPrefix(s: string)
    requires s != [] && AllDigits(s)
    ensures DecimalPrefix(s) == (|s|, DigitsValue(s) as real)
  {
    DigitRunAll(s);
    assert s[..|s|] == s;
  }

  /** `Number` reads a plain string of digits as its value. */
  lemma DigitsAsNumber(s: string)
    requires s != [] && AllDigits(s)
    ensures JsNumber(s) == Some(DigitsValue(s) as real)
  {
    assert !IsSpace(s[0]) && !IsSpace(s[|s| - 1]);
    TrimTrimmed(s);
    assert Unsigned(s) == (false, s);
    DigitsPrefix(s);
  }

  /** `parseFloat` reads a plain string of digits as its value. */
  lemma DigitsParseFloat(s: string)
    requires s != [] && AllDigits(s)
    ensures ParseFloat(s) == Some(DigitsValue(s) as real)
  {
    assert TrimStart(s) == s;
    assert Unsigned(s) == (false, s);
    DigitsPrefix(s);
  }
}
