/** The pieces of JavaScript number semantics that the time formatter relies
    on: `parseInt` on a string with no radix argument, the truncating `%`
    operator, and the decimal rendering of an integer in a template string.
    A `NaN` result is `None`. */
module JsNumber {
  import opened Wrappers

  /** The characters `parseInt` skips before the number: the ECMAScript
      WhiteSpace and LineTerminator code points. */
  predicate IsSpace(c: char) {
    c == '\t' || c == '\n' || c == '\U{000B}' || c == '\U{000C}' || c == '\r' || c == ' ' ||
    c == '\U{00A0}' || c == '\U{1680}' || ('\U{2000}' <= c <= '\U{200A}') ||
    c == '\U{2028}' || c == '\U{2029}' || c == '\U{202F}' || c == '\U{205F}' ||
    c == '\U{3000}' || c == '\U{FEFF}'
  }

  /** `s` without its leading white space. */
  function TrimStart(s: string): (r: string)
    ensures |r| <= |s| && r == s[|s| - |r|..]
    ensures r == [] || !IsSpace(r[0])
    ensures forall i :: 0 <= i < |s| - |r| ==> IsSpace(s[i])
  {
    if s != [] && IsSpace(s[0]) then TrimStart(s[1..]) else s
  }

  /** The value of `c` as a digit of radix up to sixteen. */
  function DigitValue(c: char): (d: Option<nat>)
    ensures d.Some? ==> d.value < 16
  {
    if '0' <= c <= '9' then Some(c as int - '0' as int)
    else if 'a' <= c <= 'f' then Some(c as int - 'a' as int + 10)
    else if 'A' <= c <= 'F' then Some(c as int - 'A' as int + 10)
    else None
  }

  predicate IsDigit(c: char, radix: nat) {
    DigitValue(c).Some? && DigitValue(c).value < radix
  }

  function DigitAt(c: char, radix: nat): nat
    requires IsDigit(c, radix)
  {
    DigitValue(c).value
  }

  /** The longest prefix of `s` made of digits of `radix`. */
  function DigitRun(s: string, radix: nat): (r: string)
    ensures |r| <= |s| && r == s[..|r|]
    ensures forall i :: 0 <= i < |r| ==> IsDigit(r[i], radix)
    ensures |r| == |s| || !IsDigit(s[|r|], radix)
  {
    if s != [] && IsDigit(s[0], radix) then [s[0]] + DigitRun(s[1..], radix) else []
  }

  /** The number a run of digits denotes, most significant digit first. */
  function DigitsValue(ds: string, radix: nat): nat
    requires forall i :: 0 <= i < |ds| ==> IsDigit(ds[i], radix)
  {
    if ds == [] then 0
    else
      var init, last := ds[..|ds| - 1], ds[|ds| - 1];
      assert IsDigit(last, radix);
      assert forall i :: 0 <= i < |init| ==> init[i] == ds[i];
      var high: nat := DigitsValue(init, radix);
      ProductNat(high, radix);
      high * radix + DigitAt(last, radix)
  }

  /** A solver hint: the nonlinear product of two naturals is a natural. */
  lemma ProductNat(a: nat, b: nat)
    ensures a * b >= 0
  {
  }

  /** `parseInt(s)`: skip white space, read an optional sign, switch to radix
      16 after a `0x` or `0X` prefix, and read as many digits as there are;
      with no digit at all the result is `NaN`. */
  function ParseInt(s: string): (r: Option<int>)
    ensures r.None? <==> DigitRun(Body(Unsigned(TrimStart(s))), Radix(Unsigned(TrimStart(s)))) == []
  {
    var t := TrimStart(s);
    var rest := Unsigned(t);
    var digits := DigitRun(Body(rest), Radix(rest));
    if digits == [] then None
    else Some(Sign(t) * DigitsValue(digits, Radix(rest)))
  }

  function Sign(t: string): int {
    if t != [] && t[0] == '-' then -1 else 1
  }

  /** The text after an optional sign. */
  function Unsigned(t: string): string {
    if t != [] && (t[0] == '-' || t[0] == '+') then t[1..] else t
  }

  predicate HexPrefix(u: string) {
    |u| >= 2 && u[0] == '0' && (u[1] == 'x' || u[1] == 'X')
  }

  function Radix(u: string): nat {
    if HexPrefix(u) then 16 else 10
  }

  function Body(u: string): string {
    if HexPrefix(u) then u[2..] else u
  }

  /** The JavaScript `%` operator for a positive divisor: the remainder takes
      the sign of the dividend. */
  function TruncRem(a: int, b: int): (r: int)
    requires b > 0
    ensures a >= 0 ==> r >= 0
    ensures a <= 0 ==> r <= 0
    ensures (if r < 0 then -r else r) == (if a < 0 then -a else a) % b
  {
    if a >= 0 then a % b else -((-a) % b)
  }

  function DecimalDigit(d: nat): char
    requires d < 10
  {
    ('0' as int + d) as char
  }

  /** The decimal rendering of a natural number, without leading zeros. */
  function NatToString(n: nat): (r: string)
    ensures |r| >= 1
    ensures forall i :: 0 <= i < |r| ==> '0' <= r[i] <= '9'
    ensures r[0] == '0' ==> n == 0
  {
    if n < 10 then [DecimalDigit(n)] else NatToString(n / 10) + [DecimalDigit(n % 10)]
  }

  /** `${i}` for an integer `i`. */
  function IntToString(i: int): (r: string)
    ensures |r| >= 1
    ensures r[0] == '-' <==> i < 0
    ensures forall k :: 1 <= k < |r| ==> '0' <= r[k] <= '9'
  {
    if i < 0 then "-" + NatToString(-i) else NatToString(i)
  }

  lemma DecimalDigitValue(d: nat)
    requires d < 10
    ensures DigitValue(DecimalDigit(d)) == Some(d)
  {
  }

  /** Decimal digits read back as the number they render. */
  lemma {:induction false} NatToStringValue(n: nat)
    ensures forall i :: 0 <= i < |NatToString(n)| ==> IsDigit(NatToString(n)[i], 10)
    ensures DigitsValue(NatToString(n), 10) == n
  {
    var r := NatToString(n);
    if n < 10 {
      DecimalDigitValue(n);
    } else {
      NatToStringValue(n / 10);
      DecimalDigitValue(n % 10);
      assert r[..|r| - 1] == NatToString(n / 10);
    }
  }

  lemma AllDigitsRun(s: string, radix: nat)
    requires forall i :: 0 <= i < |s| ==> IsDigit(s[i], radix)
    ensures DigitRun(s, radix) == s
  {
  }

  /** `parseInt` reads back what an integer renders to. */
  lemma ParseIntToString(i: int)
    ensures ParseInt(IntToString(i)) == Some(i)
  {
    var n: nat := if i < 0 then -i else i;
    var ds := NatToString(n);
    NatToStringValue(n);
    AllDigitsRun(ds, 10);
    NotHex(n);
    var s := IntToString(i);
    NoLeadingSpace(i);
    assert Unsigned(s) == ds by {
      if i < 0 {
        assert s == "-" + ds;
        assert s[1..] == ds;
      } else {
        assert s == ds;
      }
    }
    assert Sign(s) * n == i;
  }

  lemma NoLeadingSpace(i: int)
    ensures TrimStart(IntToString(i)) == IntToString(i)
  {
    var s := IntToString(i);
    if i >= 0 {
      assert '0' <= s[0] <= '9';
    } else {
      assert s[0] == '-';
    }
  }

  lemma NotHex(n: nat)
    ensures !HexPrefix(NatToString(n))
  {
    var ds := NatToString(n);
    if |ds| >= 2 {
      assert '0' <= ds[1] <= '9';
    }
  }
}
