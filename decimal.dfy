/**
 * Decimal text of natural numbers, as Rust's `u64::to_string` writes it and
 * `str::parse` reads it: digits most significant first, no sign and no
 * leading zeros except for the number zero itself.
 */
module Decimal {

  predicate IsDigit(c: char)
  {
    '0' <= c <= '9'
  }

  predicate AllDigits(s: string)
  {
    forall i :: 0 <= i < |s| ==> IsDigit(s[i])
  }

  /** Text as `to_string` writes it: non-empty, and no leading zero unless it is "0". */
  predicate Canonical(s: string)
  {
    |s| >= 1 && AllDigits(s) && (|s| > 1 ==> s[0] != '0')
  }

  function DigitChar(d: nat): (c: char)
    requires d < 10
    ensures IsDigit(c)
  {
    ('0' as int + d) as char
  }

  function DigitValue(c: char): (d: nat)
    requires IsDigit(c)
    ensures d < 10
  {
    c as int - '0' as int
  }

  lemma DigitRoundTrip(d: nat)
    requires d < 10
    ensures DigitValue(DigitChar(d)) == d
  {
  }

  function Pow10(k: nat): (p: nat)
    ensures p >= 1
  {
    if k == 0 then 1 else 10 * Pow10(k - 1)
  }

  /** `n.to_string()`. */
  function ToDecimal(n: nat): (s: string)
    ensures Canonical(s)
    ensures n < Pow10(|s|)
    ensures |s| > 1 ==> Pow10(|s| - 1) <= n
  {
    if n < 10 then [DigitChar(n)] else ToDecimal(n / 10) + [DigitChar(n % 10)]
  }

  /** `s.parse::<u64>()` on text made of digits only. */
  function ParseDecimal(s: string): (n: nat)
    requires AllDigits(s)
    ensures n < Pow10(|s|)
  {
    if s == [] then 0 else ParseDecimal(s[..|s| - 1]) * 10 + DigitValue(s[|s| - 1])
  }

  lemma {:induction false} ParseToDecimal(n: nat)
    ensures ParseDecimal(ToDecimal(n)) == n
  {
    if n >= 10 {
      var s := ToDecimal(n);
      assert s[..|s| - 1] == ToDecimal(n / 10);
      ParseToDecimal(n / 10);
      DigitRoundTrip(n % 10);
    } else {
      DigitRoundTrip(n);
    }
  }

  lemma {:induction false} ToDecimalParse(s: string)
    requires Canonical(s)
    ensures ToDecimal(ParseDecimal(s)) == s
  {
    var n := ParseDecimal(s);
    var k := |s| - 1;
    var d := DigitValue(s[k]);
    assert DigitChar(d) == s[k];
    if k == 0 {
      assert n == d;
    } else {
      var init := s[..k];
      assert Canonical(init);
      ToDecimalParse(init);
      var m := ParseDecimal(init);
      assert n == m * 10 + d;
      assert n / 10 == m && n % 10 == d;
      assert s == init + [s[k]];
    }
  }

  /** Two numbers with the same text are equal. */
  lemma ToDecimalInjective(a: nat, b: nat)
    requires ToDecimal(a) == ToDecimal(b)
    ensures a == b
  {
    ParseToDecimal(a);
    ParseToDecimal(b);
  }

  lemma {:induction false} ParseAppend(s: string, t: string)
    requires AllDigits(s) && AllDigits(t)
    ensures ParseDecimal(s + t) == ParseDecimal(s) * Pow10(|t|) + ParseDecimal(t)
  {
    if t == [] {
      assert s + t == s;
    } else {
      var k := |t| - 1;
      var init := t[..k];
      assert t == init + [t[k]];
      assert s + t == (s + init) + [t[k]];
      ParseAppend(s, init);
      ParseSnoc(s + init, t[k]);
      ParseSnoc(init, t[k]);
      MulStep(ParseDecimal(s), Pow10(k), ParseDecimal(init), DigitValue(t[k]));
    }
  }

  /** One more digit at the end multiplies by ten and adds its value. */
  lemma ParseSnoc(s: string, c: char)
    requires AllDigits(s) && IsDigit(c)
    ensures AllDigits(s + [c]) && ParseDecimal(s + [c]) == ParseDecimal(s) * 10 + DigitValue(c)
  {
    assert (s + [c])[..|s|] == s;
  }

  lemma MulStep(a: int, q: int, b: int, d: int)
    ensures (a * q + b) * 10 + d == a * (10 * q) + (b * 10 + d)
  {
  }

  lemma {:induction false} LengthOfBounded(n: nat, k: nat)
    requires Pow10(k) <= n < Pow10(k + 1)
    ensures |ToDecimal(n)| == k + 1
  {
    var len := |ToDecimal(n)|;
    if len < k + 1 {
      Pow10Monotone(len, k);
      assert false;
    } else if len > k + 1 {
      Pow10Monotone(k + 1, len - 1);
      assert false;
    }
  }

  lemma {:induction false} Pow10Monotone(i: nat, j: nat)
    requires i <= j
    ensures Pow10(i) <= Pow10(j)
  {
    if i < j {
      Pow10Monotone(i, j - 1);
    }
  }

  lemma {:induction false} Pow10Add(i: nat, j: nat)
    ensures Pow10(i + j) == Pow10(i) * Pow10(j)
  {
    if j > 0 {
      Pow10Add(i, j - 1);
      assert Pow10(i + j) == 10 * Pow10(i + j - 1);
    }
  }

  /**
   * Writing `p` followed by the digits of `b` gives the number
   * `p * 10^|b's digits| + b`, when `p` is at least one.
   */
  lemma ConcatText(p: nat, b: nat)
    requires p >= 1
    ensures ToDecimal(p * Pow10(|ToDecimal(b)|) + b) == ToDecimal(p) + ToDecimal(b)
  {
    var sp, sb := ToDecimal(p), ToDecimal(b);
    var s := sp + sb;
    assert Canonical(s) by {
      assert s[0] == sp[0];
    }
    ParseAppend(sp, sb);
    ParseToDecimal(p);
    ParseToDecimal(b);
    ToDecimalParse(s);
  }
}
