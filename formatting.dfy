/** Rendering naturals as digit strings, as Python's `str(n)`,
    `"{}".format(n)` and `"{:016x}".format(n)` do, and reading them back
    as `int(s)` does.  Digits above nine are the lowercase letters. */
module Formatting {

  /** `n` raised to the power `k`. */
  function Pow(b: nat, k: nat): (r: nat)
    ensures b >= 1 ==> r >= 1
  {
    if k == 0 then 1 else b * Pow(b, k - 1)
  }

  /** A digit of base `b`: '0'..'9' then 'a'..'f'. */
  predicate IsDigit(c: char, b: nat)
  {
    ('0' <= c <= '9' && (c as int) - ('0' as int) < b) ||
    ('a' <= c <= 'f' && (c as int) - ('a' as int) + 10 < b)
  }

  predicate AllDigits(s: string, b: nat)
  {
    forall k :: 0 <= k < |s| ==> IsDigit(s[k], b)
  }

  /** The character of digit `d`. */
  function DigitChar(d: nat): (c: char)
    requires d < 16
    ensures IsDigit(c, d + 1) && IsDigit(c, 16)
    ensures CharValue(c) == d
  {
    if d < 10 then (('0' as int) + d) as char else (('a' as int) + d - 10) as char
  }

  /** The value of a digit character. */
  function CharValue(c: char): (v: nat)
    requires IsDigit(c, 16)
    ensures IsDigit(c, v + 1) && !IsDigit(c, v)
  {
    if c <= '9' then (c as int) - ('0' as int) else (c as int) - ('a' as int) + 10
  }

  /** The digits of `n` in base `b`, most significant first, with no
      leading zero ("0" for zero). */
  function Digits(n: nat, b: nat): (r: string)
    requires 2 <= b <= 16
    ensures |r| >= 1 && AllDigits(r, b)
    ensures n > 0 ==> r[0] != '0'
    decreases n
  {
    if n < b then [DigitChar(n)]
    else
      DivMod(n, b);
      Digits(n / b, b) + [DigitChar(n % b)]
  }

  /** `int(s, b)` for a non-empty or empty run of digits (the empty run
      reads as zero). */
  function Value(s: string, b: nat): nat
    requires AllDigits(s, b) && b <= 16
  {
    if s == [] then 0
    else
      assert AllDigits(s[..|s| - 1], b);
      Value(s[..|s| - 1], b) * b + CharValue(s[|s| - 1])
  }

  /** Appending one digit multiplies the value by the base and adds it. */
  lemma ValueSnoc(s: string, c: char, b: nat)
    requires 2 <= b <= 16 && AllDigits(s, b) && IsDigit(c, b)
    ensures AllDigits(s + [c], b)
    ensures Value(s + [c], b) == Value(s, b) * b + CharValue(c)
  {
    assert (s + [c])[..|s|] == s;
  }

  /** Reading back what `Digits` wrote gives the number. */
  lemma {:induction false} DigitsRoundTrip(n: nat, b: nat)
    requires 2 <= b <= 16
    ensures Value(Digits(n, b), b) == n
    decreases n
  {
    if n >= b {
      var q, r := n / b, n % b;
      DivMod(n, b);
      DigitsRoundTrip(q, b);
      ValueSnoc(Digits(q, b), DigitChar(r), b);
    }
  }

  /** Numbers below `b^k` need at most `k` digits. */
  lemma {:induction false} DigitsLength(n: nat, b: nat, k: nat)
    requires 2 <= b <= 16 && 1 <= k && n < Pow(b, k)
    ensures |Digits(n, b)| <= k
    decreases k
  {
    if n >= b {
      var p := Pow(b, k - 1);
      assert Pow(b, k) == b * p;
      DivBelow(n, b, p);
      assert n / b >= 1;
      DigitsLength(n / b, b, k - 1);
    }
  }

  /** `n < b * p` bounds the quotient by `p`. */
  lemma DivBelow(n: nat, b: nat, p: nat)
    requires b >= 1 && n < b * p
    ensures n / b < p
  {
    DivMod(n, b);
  }

  /** Quotient and remainder put back together. */
  lemma DivMod(n: nat, b: nat)
    requires b >= 1
    ensures n == (n / b) * b + n % b && n % b < b
    ensures b >= 2 && n >= 1 ==> n / b < n
  {
  }

  /** A number below the base is one digit. */
  lemma SingleDigit(n: nat, b: nat)
    requires 2 <= b <= 16 && n < b
    ensures Digits(n, b) == [DigitChar(n)]
  {
  }

  function Zeros(k: nat): (r: string)
    ensures |r| == k && forall i :: 0 <= i < k ==> r[i] == '0'
  {
    if k == 0 then "" else Zeros(k - 1) + "0"
  }

  /** Right-aligns `s` in a field of `width` characters filled with '0'
      (the `0` flag of Python's format mini-language). */
  function PadZeros(s: string, width: nat): (r: string)
    ensures |r| == if |s| < width then width else |s|
    ensures AllDigits(s, 16) ==> AllDigits(r, 16)
  {
    if |s| < width then Zeros(width - |s|) + s else s
  }

  /** Padding a run of hexadecimal digits does not change its value. */
  lemma PadZerosValue(s: string, width: nat)
    requires AllDigits(s, 16)
    ensures AllDigits(PadZeros(s, width), 16)
    ensures Value(PadZeros(s, width), 16) == Value(s, 16)
  {
    if |s| < width {
      ValueLeadingZeros(width - |s|, s, 16);
    }
  }

  /** Leading zeros do not change the value. */
  lemma {:induction false} ValueLeadingZeros(k: nat, s: string, b: nat)
    requires 2 <= b <= 16 && AllDigits(s, b)
    ensures AllDigits(Zeros(k) + s, b)
    ensures Value(Zeros(k) + s, b) == Value(s, b)
    decreases |s|, k
  {
    var z := Zeros(k) + s;
    assert AllDigits(Zeros(k), b);
    AllDigitsConcat(Zeros(k), s, b);
    if s == [] {
      if k > 0 {
        assert z[..|z| - 1] == Zeros(k - 1) + [];
        ValueLeadingZeros(k - 1, [], b);
      }
    } else {
      assert z[..|z| - 1] == Zeros(k) + s[..|s| - 1];
      ValueLeadingZeros(k, s[..|s| - 1], b);
    }
  }

  /** The value of two runs of digits written one after the other. */
  lemma {:induction false} ValueConcat(a: string, c: string, b: nat)
    requires 2 <= b <= 16 && AllDigits(a, b) && AllDigits(c, b)
    ensures AllDigits(a + c, b)
    ensures Value(a + c, b) == Value(a, b) * Pow(b, |c|) + Value(c, b)
    decreases |c|
  {
    AllDigitsConcat(a, c, b);
    if c == [] {
      assert a + c == a;
    } else {
      var c', d := c[..|c| - 1], c[|c| - 1];
      assert c == c' + [d];
      assert a + c == (a + c') + [d];
      AllDigitsConcat(a, c', b);
      ValueConcat(a, c', b);
      ValueSnoc(c', d, b);
      ValueSnoc(a + c', d, b);
      ConcatStep(Value(a + c', b), Value(a + c, b), Value(c', b), Value(c, b),
                 Value(a, b), Pow(b, |c'|), Pow(b, |c|), CharValue(d), b);
    }
  }

  /** Two runs of digits written one after the other are a run of digits. */
  lemma AllDigitsConcat(a: string, c: string, b: nat)
    requires AllDigits(a, b) && AllDigits(c, b)
    ensures AllDigits(a + c, b)
  {
    forall i | 0 <= i < |a + c| ensures IsDigit((a + c)[i], b) {
      if i >= |a| {
        assert (a + c)[i] == c[i - |a|];
      }
    }
  }

  /** The arithmetic step of `ValueConcat`: with `u = x*p + y` the value
      of `a + c'`, appending the digit `d` to both sides regroups. */
  lemma ConcatStep(u: int, v: int, y: int, w: int, x: int, p: int, q: int, d: int, b: int)
    requires u == x * p + y && v == u * b + d && w == y * b + d && q == b * p
    ensures v == x * q + w
  {
    assert (x * p + y) * b == x * p * b + y * b;
    assert x * p * b == x * (b * p);
  }

  // ---------------------------------------------------------------------
  // The two renderings the topology builder uses

  /** `str(n)` and `"{}".format(n)`: never empty; DecRoundTrip states
      that it is a run of decimal digits reading back as `n`. */
  function Dec(n: nat): (r: string)
    ensures |r| >= 1
  {
    Digits(n, 10)
  }

  /** `"{:016x}".format(n)`: lowercase hexadecimal, zero-padded on the
      left to 16 characters (longer when the number needs more); it reads
      back, in base 16, as the number it was made from. */
  function Hex016(n: nat): (r: string)
    ensures |r| >= 16 && AllDigits(r, 16) && Value(r, 16) == n
  {
    DigitsRoundTrip(n, 16);
    PadZerosValue(Digits(n, 16), 16);
    PadZeros(Digits(n, 16), 16)
  }

  /** `int(str(n)) == n`: `str` loses nothing. */
  lemma DecRoundTrip(n: nat)
    ensures AllDigits(Dec(n), 10) && Value(Dec(n), 10) == n
  {
    DigitsRoundTrip(n, 10);
  }

  /** Different numbers print differently. */
  lemma DecInjective(m: nat, n: nat)
    requires Dec(m) == Dec(n)
    ensures m == n
  {
    DecRoundTrip(m);
    DecRoundTrip(n);
  }

  /** Every number below 16^16 is rendered as exactly 16 lowercase
      hexadecimal digits. */
  lemma Hex016Shape(n: nat)
    requires n < Pow(16, 16)
    ensures |Hex016(n)| == 16 && AllDigits(Hex016(n), 16)
  {
    DigitsLength(n, 16, 16);
  }

  /** Different numbers get different DPID strings. */
  lemma Hex016Distinct(m: nat, n: nat)
    requires m != n
    ensures Hex016(m) != Hex016(n)
  {
  }

  /** `int("{}{}".format(a, c))` for a one-digit `c`: the decimal
      concatenation is `10 * a + c`. */
  lemma DecConcatOneDigit(a: nat, c: nat)
    requires c <= 9
    ensures AllDigits(Dec(a) + Dec(c), 10)
    ensures Value(Dec(a) + Dec(c), 10) == 10 * a + c
  {
    DecRoundTrip(a);
    DecRoundTrip(c);
    SingleDigit(c, 10);
    ValueConcat(Dec(a), Dec(c), 10);
    assert Pow(10, 1) == 10 * Pow(10, 0);
  }
}
